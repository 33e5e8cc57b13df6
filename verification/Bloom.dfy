/** The bloom filter of a block. */
module Bloom {
  // The bloom filter of a block: four bits per key at positions taken from a 128-bit hash,
  // set in place in a byte array, and the label keys the writer and the reader put together.

  import opened Prelude

  const TWO_64 := 0x1_0000_0000_0000_0000
  const K := 4

  /** The two halves of a 128-bit hash, each below 2^64. */
  datatype Hash = Hash(lo: nat, hi: nat)

  type Hasher = Str -> Hash

  // ---------- bits ----------

  function Mask(j: nat): bv8
    requires j < 8
  {
    if j == 0 then 1 else if j == 1 then 2 else if j == 2 then 4 else if j == 3 then 8
    else if j == 4 then 16 else if j == 5 then 32 else if j == 6 then 64 else 128
  }

  predicate BitAt(s: seq<bv8>, i: nat)
    requires i < |s| * 8
  {
    s[i / 8] & Mask(i % 8) != 0
  }

  lemma OrBits(x: bv8, j: nat, k: nat)
    requires j < 8 && k < 8
    ensures (x | Mask(j)) & Mask(k) != 0 <==> x & Mask(k) != 0 || j == k
  {
    OrTwo(x, Mask(j), Mask(k));
    assert Mask(j) & Mask(k) != 0 <==> j == k;
  }

  lemma OrTwo(x: bv8, a: bv8, b: bv8)
    ensures (x | a) & b == (x & b) | (a & b)
  {}

  /** The i-th probe; the product and the sum wrap around at 2^64. */
  function Probe(h: Hash, i: nat): nat { (h.lo + i * h.hi % TWO_64) % TWO_64 }

  /** The position of the i-th bit. */
  function IndexBit(h: Hash, i: nat, bits: nat): (p: nat)
    requires bits > 0
    ensures p < bits
  {
    Probe(h, i) % bits
  }

  lemma {:induction false} ModShift(q: nat, x: nat, m: nat)
    requires m > 0
    ensures (q * m + x) % m == x % m
    decreases q
  {
    if q > 0 {
      ModShift(q - 1, x, m);
      assert q * m + x == (q - 1) * m + x + m;
      ModOnce((q - 1) * m + x, m);
    }
  }

  lemma ModOnce(x: nat, m: nat)
    requires m > 0
    ensures (x + m) % m == x % m
  {
    assert x + m == (x / m + 1) * m + x % m;
    var q := (x + m) / m;
    assert x + m == q * m + (x + m) % m;
    assert (x / m + 1 - q) * m == (x + m) % m - x % m;
    if x / m + 1 != q { MulGap(x / m + 1 - q, m); }
  }

  lemma MulGap(d: int, m: int)
    requires d != 0 && m > 0
    ensures d * m >= m || d * m <= -m
  {
    if d > 0 { assert (d - 1) * m >= 0; } else { assert (-d - 1) * m >= 0; }
  }

  lemma ModAdd(a: nat, b: nat, m: nat)
    requires m > 0
    ensures (a % m + b) % m == (a + b) % m
  {
    assert a + b == a / m * m + (a % m + b);
    ModShift(a / m, a % m + b, m);
  }

  /** Probes start at the low half of the hash, each is the high half further on than the last, modulo 2^64, and a position is its probe modulo the bits. */
  lemma ProbesAreSpaced(h: Hash, i: nat, bits: nat)
    requires bits > 0
    ensures IndexBit(h, 0, bits) == h.lo % TWO_64 % bits
    ensures Probe(h, i + 1) == (Probe(h, i) + h.hi) % TWO_64
    ensures IndexBit(h, i + 1, bits) == (Probe(h, i) + h.hi) % TWO_64 % bits
  {
    var a, b := i * h.hi, h.hi;
    assert (i + 1) * h.hi == a + b;
    assert 0 * h.hi == 0;
    ModAdd(a, b + h.lo, TWO_64);
    ModAdd(a + b, h.lo, TWO_64);
    ModAdd(h.lo + a % TWO_64, b, TWO_64);
  }

  /** While nothing wraps around, the i-th position is lo + i * hi modulo the bits. */
  lemma UnwrappedPosition(h: Hash, i: nat, bits: nat)
    requires bits > 0 && h.lo + i * h.hi < TWO_64
    ensures IndexBit(h, i, bits) == (h.lo + i * h.hi) % bits
  {
    var step := i * h.hi;
    assert step % TWO_64 == step;
  }

  function Positions(h: Hash, n: nat, bits: nat): set<nat>
    requires bits > 0
  {
    if n == 0 then {} else Positions(h, n - 1, bits) + {IndexBit(h, n - 1, bits)}
  }

  method SetBit(b: array<bv8>, h: Hash, i: nat)
    modifies b
    ensures forall k: nat :: k < b.Length * 8 ==>
      (BitAt(b[..], k) <==> BitAt(old(b[..]), k) || k == IndexBit(h, i, b.Length * 8))
  {
    hide BitAt, IndexBit, Mask;
    if b.Length == 0 { return; }
    var index := IndexBit(h, i, b.Length * 8);
    ghost var before := b[..];
    b[index / 8] := b[index / 8] | Mask(index % 8);
    assert b[..] == before[index / 8 := before[index / 8] | Mask(index % 8)];
    forall k: nat | k < b.Length * 8 ensures BitAt(b[..], k) <==> BitAt(before, k) || k == index {
      OneBit(before, index, k);
    }
  }

  lemma OneBit(s: seq<bv8>, index: nat, k: nat)
    requires index < |s| * 8 && k < |s| * 8
    ensures BitAt(s[index / 8 := s[index / 8] | Mask(index % 8)], k) <==> BitAt(s, k) || k == index
  {
    hide Mask;
    if k / 8 == index / 8 { OrBits(s[k / 8], index % 8, k % 8); }
  }

  method SetHash(b: array<bv8>, h: Hash)
    modifies b
    ensures forall k: nat :: k < b.Length * 8 ==>
      (BitAt(b[..], k) <==> BitAt(old(b[..]), k) || k in Positions(h, K, b.Length * 8))
  {
    hide BitAt, IndexBit;
    var i := 0;
    while i < K
      invariant 0 <= i <= K
      invariant forall k: nat :: k < b.Length * 8 ==>
        (BitAt(b[..], k) <==> BitAt(old(b[..]), k) || k in Positions(h, i, b.Length * 8))
    {
      SetBit(b, h, i);
      i := i + 1;
    }
  }

  ghost predicate AllSet(s: seq<bv8>, ps: set<nat>) { forall p :: p in ps ==> p < |s| * 8 && BitAt(s, p) }

  method MightContainHash(b: array<bv8>, h: Hash) returns (maybe: bool)
    ensures maybe <==> b.Length != 0 && AllSet(b[..], Positions(h, K, b.Length * 8))
  {
    hide BitAt, IndexBit;
    if b.Length == 0 { return false; }
    var i := 0;
    while i < K
      invariant 0 <= i <= K && AllSet(b[..], Positions(h, i, b.Length * 8))
    {
      var index := IndexBit(h, i, b.Length * 8);
      assert b[..][index / 8] == b[index / 8];
      if !BitAt(b[..], index) {
        PositionIn(h, i, K, b.Length * 8);
        return false;
      }
      i := i + 1;
    }
    return true;
  }

  lemma {:induction false} PositionIn(h: Hash, i: nat, n: nat, bits: nat)
    requires bits > 0 && i < n
    ensures IndexBit(h, i, bits) in Positions(h, n, bits)
  {
    if i < n - 1 { PositionIn(h, i, n - 1, bits); }
  }

  // ---------- a filter for a set of keys ----------

  /** Exactly the positions of the keys. */
  ghost predicate IsFilter(s: seq<bv8>, hash: Hasher, keys: set<Str>)
  {
    |s| > 0 && forall p: nat :: p < |s| * 8 ==> (BitAt(s, p) <==> exists k :: k in keys && p in Positions(hash(k), K, |s| * 8))
  }

  /** Ten bits a key, at least 1024 bytes. */
  function FilterSize(n: nat): (r: nat)
    ensures r >= 1024 && 8 * r >= 10 * n && (r > 1024 ==> 8 * (r - 1) < 10 * n)
  {
    if (n * 10 + 7) / 8 < 1024 then 1024 else (n * 10 + 7) / 8
  }

  /** Keys added in any order. */
  method BuildFilter(hash: Hasher, keys: set<Str>) returns (b: array<bv8>)
    ensures fresh(b) && b.Length == FilterSize(|keys|)
    ensures IsFilter(b[..], hash, keys)
  {
    hide BitAt, Positions;
    var n := FilterSize(|keys|);
    b := new bv8[n](_ => 0);
    NoBits(b[..]);
    var rest := keys;
    while rest != {}
      invariant rest <= keys && b.Length == n && fresh(b)
      invariant IsFilter(b[..], hash, keys - rest)
      decreases rest
    {
      var k :| k in rest;
      SetHash(b, hash(k));
      rest := rest - {k};
      assert keys - rest == (keys - (rest + {k})) + {k};
    }
    assert keys - rest == keys;
  }

  lemma NoBits(s: seq<bv8>)
    requires forall i :: 0 <= i < |s| ==> s[i] == 0
    ensures forall p: nat :: p < |s| * 8 ==> !BitAt(s, p)
  {}

  /** No false negatives: whatever else was added, a key that was added is reported. */
  lemma NoFalseNegative(s: seq<bv8>, hash: Hasher, keys: set<Str>, k: Str)
    requires IsFilter(s, hash, keys) && k in keys
    ensures AllSet(s, Positions(hash(k), K, |s| * 8))
  {
    hide BitAt, Positions;
    forall p | p in Positions(hash(k), K, |s| * 8) ensures p < |s| * 8 && BitAt(s, p) {
      PositionsBelow(hash(k), K, |s| * 8);
    }
  }

  lemma {:induction false} PositionsBelow(h: Hash, n: nat, bits: nat)
    requires bits > 0
    ensures forall p :: p in Positions(h, n, bits) ==> p < bits
  {
    if n > 0 { PositionsBelow(h, n - 1, bits); }
  }

  // ---------- label keys ----------

  const PREFIX: Str := [108, 98, 108, 58] // "lbl:"
  const BUFFER := 256

  function WriterKey(k: Str, v: Str): Str { PREFIX + k + [61] + v }

  lemma NoShorter(k: Str, v: Str, l: Str, w: Str)
    requires 61 !in l && k + [61] + v == l + [61] + w
    ensures |l| <= |k|
  {
    var s := k + [61] + v;
    assert s[|k|] == 61;
    assert forall i :: 0 <= i < |l| ==> s[i] == l[i] && l[i] in l;
  }

  /** A key stands for one label and value, as long as label names hold no '='. */
  lemma WriterKeyInjective(k: Str, v: Str, l: Str, w: Str)
    requires 61 !in k && 61 !in l && WriterKey(k, v) == WriterKey(l, w)
    ensures k == l && v == w
  {
    var a, b := k + [61] + v, l + [61] + w;
    assert a == WriterKey(k, v)[4..] && b == WriterKey(l, w)[4..];
    NoShorter(k, v, l, w);
    NoShorter(l, w, k, v);
    assert a[..|k|] == k && b[..|l|] == l;
    assert a[|k| + 1..] == v && b[|l| + 1..] == w;
  }

  /** The reader copies into a fixed buffer; None where storing the '=' is out of range. */
  function ReaderKey(k: Str, v: Str): Option<Str>
  {
    var head := (PREFIX + k)[..Min(|PREFIX + k|, BUFFER)];
    if |head| >= BUFFER then None
    else Some(head + [61] + v[..Min(|v|, BUFFER - |head| - 1)])
  }

  /** The reader asks for the key the writer stored exactly when it fits the buffer. */
  lemma ReaderAgreesIff(k: Str, v: Str)
    ensures ReaderKey(k, v) == Some(WriterKey(k, v)) <==> 4 + |k| + 1 + |v| <= BUFFER
    ensures ReaderKey(k, v).None? <==> 4 + |k| >= BUFFER
  {
    if 4 + |k| + 1 + |v| <= BUFFER {
      assert (PREFIX + k)[..|PREFIX + k|] == PREFIX + k && v[..|v|] == v;
    } else {
      assert |PREFIX| == 4 && |WriterKey(k, v)| > BUFFER;
    }
  }

  /** Copies what fits of s into the buffer at n and says where it ends. */
  method CopyAt(buf: array<Byte>, n: nat, s: Str) returns (m: nat)
    requires n <= buf.Length
    modifies buf
    ensures m == n + Min(|s|, buf.Length - n)
    ensures buf[..n] == old(buf[..n]) && buf[n..m] == s[..m - n]
  {
    m := n;
    while m < buf.Length && m - n < |s|
      invariant n <= m <= buf.Length && m - n <= |s|
      invariant buf[..n] == old(buf[..n]) && buf[n..m] == s[..m - n]
    {
      buf[m] := s[m - n];
      m := m + 1;
    }
  }

  /** The reader's key in a buffer of 256 bytes; None where the separator would be out of range. */
  method LabelKey(k: Str, v: Str) returns (key: Option<Str>)
    ensures key == ReaderKey(k, v)
  {
    var buf := new Byte[BUFFER](_ => 0);
    var n := CopyAt(buf, 0, PREFIX);
    n := CopyAt(buf, n, k);
    assert buf[..n] == (PREFIX + k)[..n];
    if n >= BUFFER { return None; }
    ghost var head := buf[..n];
    buf[n] := 61;
    n := n + 1;
    assert buf[..n] == head + [61];
    ghost var m := n;
    n := CopyAt(buf, n, v);
    assert buf[..n] == buf[..m] + buf[m..n];
    key := Some(buf[..n]);
  }

  method MightContainLabel(b: array<bv8>, hash: Hasher, k: Str, v: Str) returns (maybe: Option<bool>)
    ensures maybe.None? <==> 4 + |k| >= BUFFER
    ensures maybe.Some? ==> (maybe.value <==> KeepsBlock(b[..], hash, k, v))
  {
    var key := LabelKey(k, v);
    ReaderAgreesIff(k, v);
    if key.None? { return None; }
    var r := MightContainHash(b, hash(key.value));
    maybe := Some(r);
  }

  /** One row of a block: its labels and its text tokens. */
  datatype Row = Row(labels: map<Str, Str>, tokens: seq<Str>)

  function RowKeys(r: Row): set<Str>
  {
    (set k | k in r.labels :: WriterKey(k, r.labels[k])) + (set t | t in r.tokens)
  }

  function BlockKeys(rows: seq<Row>): set<Str>
  {
    if rows == [] then {} else BlockKeys(rows[..|rows| - 1]) + RowKeys(rows[|rows| - 1])
  }

  lemma {:induction false} RowInBlock(rows: seq<Row>, i: nat)
    requires i < |rows|
    ensures RowKeys(rows[i]) <= BlockKeys(rows)
  {
    if i < |rows| - 1 { RowInBlock(rows[..|rows| - 1], i); }
  }

  method BlockFilter(hash: Hasher, rows: seq<Row>) returns (b: array<bv8>)
    ensures fresh(b) && b.Length == FilterSize(|BlockKeys(rows)|) && IsFilter(b[..], hash, BlockKeys(rows))
  {
    var distinct := {};
    var i := 0;
    while i < |rows|
      invariant 0 <= i <= |rows| && distinct == BlockKeys(rows[..i])
    {
      assert rows[..i + 1][..i] == rows[..i];
      distinct := distinct + RowKeys(rows[i]);
      i := i + 1;
    }
    assert rows[..i] == rows;
    b := BuildFilter(hash, distinct);
  }

  /** Label equality as the matcher decides it: a missing label reads as the empty string. */
  predicate Matches(r: Row, k: Str, v: Str) { (if k in r.labels then r.labels[k] else []) == v }

  /** Whether the reader keeps a block for label k = v. */
  ghost predicate KeepsBlock(s: seq<bv8>, hash: Hasher, k: Str, v: Str)
  {
    ReaderKey(k, v).Some? && |s| > 0 && AllSet(s, Positions(hash(ReaderKey(k, v).value), K, |s| * 8))
  }

  /** A hash function that tells one key from all others. */
  function Telling(key: Str): Hasher { x => if x == key then Hash(0, 0) else Hash(1, 0) }

  lemma TellingPositions(key: Str, x: Str, bits: nat)
    requires bits > 1
    ensures Positions(Telling(key)(x), K, bits) == {if x == key then 0 else 1}
  {
    var h := Telling(key)(x);
    var p := if x == key then 0 else 1;
    assert forall i: nat :: IndexBit(h, i, bits) == p;
    assert Positions(h, 1, bits) == {p};
    assert Positions(h, 2, bits) == {p};
    assert Positions(h, 3, bits) == {p};
    assert Positions(h, 4, bits) == {p};
  }

  /** The filter of any keys under Telling(key): all of them set bit 1. */
  function TellingFilter(n: nat, any: bool): (s: seq<bv8>)
    requires n > 0
    ensures |s| == n && s[0] == (if any then 2 else 0) && forall i :: 0 < i < n ==> s[i] == 0
  {
    seq(n, i => if i == 0 && any then 2 else 0)
  }

  lemma TellingBits(n: nat, any: bool, p: nat)
    requires n > 0 && p < n * 8
    ensures BitAt(TellingFilter(n, any), p) <==> any && p == 1
  {
    if p / 8 == 0 { assert p < 8; }
  }

  lemma TellingIsFilter(key: Str, keys: set<Str>, n: nat)
    requires key !in keys && n > 0
    ensures IsFilter(TellingFilter(n, keys != {}), Telling(key), keys)
  {
    hide BitAt, Positions, Telling, TellingFilter;
    var s := TellingFilter(n, keys != {});
    assert |s| == n by { TellingLength(n, keys != {}); }
    forall p: nat | p < |s| * 8 ensures BitAt(s, p) <==> exists k :: k in keys && p in Positions(Telling(key)(k), K, |s| * 8) {
      TellingBits(n, keys != {}, p);
      forall k | k in keys ensures Positions(Telling(key)(k), K, |s| * 8) == {1} { TellingPositions(key, k, |s| * 8); }
      if keys != {} { var k :| k in keys; assert 1 in Positions(Telling(key)(k), K, |s| * 8); }
    }
  }

  lemma TellingLength(n: nat, any: bool)
    requires n > 0
    ensures |TellingFilter(n, any)| == n
  {}

  /** The block is kept for k = v whatever the hash function. */
  ghost predicate AlwaysKept(rows: seq<Row>, k: Str, v: Str)
  {
    forall hash: Hasher, s: seq<bv8> ::
      IsFilter(s, hash, BlockKeys(rows)) && |s| == FilterSize(|BlockKeys(rows)|) ==> KeepsBlock(s, hash, k, v)
  }

  /** Whatever the rows: a block is never pruned exactly when the key the reader asks for is one of its keys. */
  lemma AlwaysKeptIff(rows: seq<Row>, k: Str, v: Str)
    requires ReaderKey(k, v).Some?
    ensures AlwaysKept(rows, k, v) <==> ReaderKey(k, v).value in BlockKeys(rows)
  {
    hide Positions, ReaderKey, BlockKeys, IsFilter, BitAt;
    var key, keys := ReaderKey(k, v).value, BlockKeys(rows);
    if key in keys {
      forall hash: Hasher, s: seq<bv8> | IsFilter(s, hash, keys) && |s| == FilterSize(|keys|) ensures KeepsBlock(s, hash, k, v) {
        NoFalseNegative(s, hash, keys, key);
      }
    } else {
      var n := FilterSize(|keys|);
      var s := TellingFilter(n, keys != {});
      TellingIsFilter(key, keys, n);
      TellingPositions(key, key, n * 8);
      TellingBits(n, keys != {}, 0);
      assert 0 in Positions(Telling(key)(key), K, |s| * 8);
      assert !KeepsBlock(s, Telling(key), k, v);
    }
  }

  /** A matching row that has the label, with a key that fits: never pruned, the empty value included. */
  lemma MatchingBlockKept(rows: seq<Row>, i: nat, k: Str, v: Str)
    requires i < |rows| && Matches(rows[i], k, v) && (v != [] || k in rows[i].labels) && 4 + |k| + 1 + |v| <= BUFFER
    ensures AlwaysKept(rows, k, v)
  {
    hide ReaderKey, WriterKey, AlwaysKept, BlockKeys;
    ReaderAgreesIff(k, v);
    RowInBlock(rows, i);
    assert WriterKey(k, v) in RowKeys(rows[i]);
    AlwaysKeptIff(rows, k, v);
  }

  /** A row that has the label, with a longer key: never pruned exactly when the cut key happens to be a key of the block too. */
  lemma LongLabelKeptIff(rows: seq<Row>, i: nat, k: Str, v: Str)
    requires i < |rows| && Matches(rows[i], k, v) && 4 + |k| < BUFFER < 4 + |k| + 1 + |v|
    ensures AlwaysKept(rows, k, v) <==> WriterKey(k, v)[..BUFFER] in BlockKeys(rows)
  {
    hide AlwaysKept, BlockKeys;
    ReaderAgreesIff(k, v);
    AlwaysKeptIff(rows, k, v);
    assert (PREFIX + k)[..|PREFIX + k|] == PREFIX + k;
    assert ReaderKey(k, v).value == WriterKey(k, v)[..BUFFER];
  }

  /** A block of that one row is pruned under some hash function. */
  lemma LongLabelPruned(k: Str, v: Str)
    requires 4 + |k| < BUFFER < 4 + |k| + 1 + |v|
    ensures Matches(Row(map[k := v], []), k, v) && !AlwaysKept([Row(map[k := v], [])], k, v)
  {
    hide AlwaysKept;
    var row := Row(map[k := v], []);
    LongLabelKeptIff([row], 0, k, v);
    assert [row][..0] == [];
    assert RowKeys(row) == {WriterKey(k, v)};
    assert BlockKeys([row]) == {WriterKey(k, v)};
    assert |WriterKey(k, v)[..BUFFER]| < |WriterKey(k, v)|;
  }

  /** A row that matches the empty value because it lacks the label: never pruned exactly when the block has the bare key. */
  lemma EmptyValueKeptIff(rows: seq<Row>, i: nat, k: Str)
    requires i < |rows| && k !in rows[i].labels && 4 + |k| + 1 <= BUFFER
    ensures Matches(rows[i], k, []) && (AlwaysKept(rows, k, []) <==> WriterKey(k, []) in BlockKeys(rows))
  {
    hide AlwaysKept, BlockKeys, ReaderKey, WriterKey;
    ReaderAgreesIff(k, []);
    AlwaysKeptIff(rows, k, []);
  }

  /** A block of one bare row is pruned under some hash function. */
  lemma EmptyValuePruned(k: Str)
    requires 4 + |k| + 1 <= BUFFER
    ensures Matches(Row(map[], []), k, []) && !AlwaysKept([Row(map[], [])], k, [])
  {
    hide AlwaysKept;
    var row := Row(map[], []);
    EmptyValueKeptIff([row], 0, k);
    assert [row][..0] == [];
    assert RowKeys(row) == {};
    assert BlockKeys([row]) == {};
  }
}
