/** The binary block format: timestamps, offsets and the blob of lines, little endian. */
module BinBlock {
  import opened Prelude

  const TWO_32 := 0x1_0000_0000
  const TWO_63 := 0x8000_0000_0000_0000
  const TWO_64 := 0x1_0000_0000_0000_0000

  /** The view DecodeBinBlock gives over a buffer. */
  datatype Block = Block(ts: seq<int>, offsets: seq<nat>, blob: seq<Byte>)

  // ---------- little-endian integers ----------

  /** The low `n` bytes of `x`; higher bytes are dropped, as by a narrowing conversion. */
  function LE(x: nat, n: nat): (r: seq<Byte>)
    ensures |r| == n
  {
    if n == 0 then [] else [x % 256] + LE(x / 256, n - 1)
  }

  function FromLE(b: seq<Byte>): nat
  {
    if b == [] then 0 else b[0] + 256 * FromLE(b[1..])
  }

  function Pow256(n: nat): (p: nat)
    ensures p > 0
  {
    if n == 0 then 1 else 256 * Pow256(n - 1)
  }

  lemma ModStep(x: nat, p: nat)
    requires p > 0
    ensures x % 256 + 256 * ((x / 256) % p) == x % (256 * p)
  {
    var q, r := x / 256, x % 256;
    var k, m := q / p, q % p;
    assert x == 256 * q + r && q == p * k + m;
    var rest := 256 * m + r;
    assert x == (256 * p) * k + rest by {
      assert 256 * (p * k) == (256 * p) * k;
    }
    assert 0 <= rest < 256 * p;
    DivUnique(x, 256 * p, k, rest);
  }

  lemma MulAtLeast(d: int, m: int)
    requires d > 0 && m >= 1
    ensures d * m >= d
  {
    if m > 1 { MulAtLeast(d, m - 1); }
  }

  lemma DivUnique(x: int, d: int, k: int, r: int)
    requires 0 <= r < d && x == d * k + r
    ensures x % d == r
  {
    var k', r' := x / d, x % d;
    var m := k - k';
    assert d * m == d * k - d * k' == r' - r;
    if m >= 1 { MulAtLeast(d, m); }
    if m <= -1 { MulAtLeast(d, -m); }
  }

  lemma {:induction false} FromLEofLE(x: nat, n: nat)
    ensures FromLE(LE(x, n)) == x % Pow256(n)
  {
    if n > 0 {
      FromLEofLE(x / 256, n - 1);
      assert LE(x, n)[1..] == LE(x / 256, n - 1);
      ModStep(x, Pow256(n - 1));
    }
  }

  /** Byte i of an integer is its i-th digit to the base 256, the lowest first. */
  lemma {:induction false} LEDigit(x: nat, n: nat, i: nat)
    requires i < n
    ensures LE(x, n)[i] == x / Pow256(i) % 256
  {
    if i > 0 {
      LEDigit(x / 256, n - 1, i - 1);
      DivStep(x, Pow256(i - 1));
    }
  }

  lemma DivStep(x: nat, p: nat)
    requires p > 0
    ensures x / 256 / p == x / (256 * p)
  {
    var q := x / 256 / p;
    ModStep(x, p);
    assert x / 256 == p * q + x / 256 % p;
    assert x == 256 * (p * q) + x % (256 * p);
    assert 256 * (p * q) == (256 * p) * q;
    DivIs(x, 256 * p, q, x % (256 * p));
  }

  lemma DivIs(x: int, d: int, k: int, r: int)
    requires 0 <= r < d && x == d * k + r
    ensures x / d == k
  {
    var m := k - x / d;
    assert d * m == x % d - r;
    if m >= 1 { MulAtLeast(d, m); }
    if m <= -1 { MulAtLeast(d, -m); }
  }

  lemma {:induction false} FromLEBound(b: seq<Byte>)
    ensures FromLE(b) < Pow256(|b|)
  {
    if b != [] { FromLEBound(b[1..]); }
  }

  lemma Pow4()
    ensures Pow256(4) == TWO_32
  {
    assert Pow256(1) == 256 && Pow256(2) == 0x1_0000 && Pow256(3) == 0x100_0000;
  }

  lemma Pow8()
    ensures Pow256(8) == TWO_64
  {
    Pow4();
    assert Pow256(5) == 0x100_0000_0000 && Pow256(6) == 0x1_0000_0000_0000 && Pow256(7) == 0x100_0000_0000_0000;
  }

  /** int64 and its uint64 image. */
  predicate IsInt64(x: int) { -TWO_63 <= x < TWO_63 }

  function ToU64(x: int): nat
    requires IsInt64(x)
  {
    if x < 0 then x + TWO_64 else x
  }

  function ToInt64(u: nat): int { if u < TWO_63 then u else u - TWO_64 }

  // ---------- the format ----------

  ghost predicate Timestamps(es: seq<Entry>) { forall i :: 0 <= i < |es| ==> IsInt64(es[i].ts) }

  function Total(es: seq<Entry>): nat
  {
    if es == [] then 0 else Total(es[..|es| - 1]) + |es[|es| - 1].data|
  }

  function TsBytes(es: seq<Entry>): (r: seq<Byte>)
    requires Timestamps(es)
    ensures |r| == 8 * |es|
  {
    if es == [] then [] else TsBytes(es[..|es| - 1]) + LE(ToU64(es[|es| - 1].ts), 8)
  }

  /** The first `n` offsets: where each row starts, and where the last one ends. */
  function OffsetBytes(es: seq<Entry>, n: nat): (r: seq<Byte>)
    requires n <= |es| + 1
    ensures |r| == 4 * n
  {
    if n == 0 then [] else OffsetBytes(es, n - 1) + LE(Total(es[..n - 1]), 4)
  }

  function Blob(es: seq<Entry>): (r: seq<Byte>)
    ensures |r| == Total(es)
  {
    if es == [] then [] else Blob(es[..|es| - 1]) + es[|es| - 1].data
  }

  function Encode(es: seq<Entry>): seq<Byte>
    requires Timestamps(es)
  {
    TsBytes(es) + OffsetBytes(es, |es| + 1) + Blob(es)
  }

  function DirSize(count: nat): nat { count * 8 + (count + 1) * 4 }

  function TsAt(buf: seq<Byte>, i: nat): int
    requires 8 * i + 8 <= |buf|
  {
    ToInt64(FromLE(buf[8 * i..8 * i + 8]))
  }

  function OffsetAt(buf: seq<Byte>, count: nat, i: nat): nat
    requires 8 * count + 4 * i + 4 <= |buf|
  {
    FromLE(buf[8 * count + 4 * i..8 * count + 4 * i + 4])
  }

  function AllTs(buf: seq<Byte>, count: nat): (r: seq<int>)
    requires DirSize(count) <= |buf|
    ensures |r| == count && forall i :: 0 <= i < count ==> r[i] == TsAt(buf, i)
  {
    seq(count, i requires 0 <= i < count => TsAt(buf, i))
  }

  function AllOffsets(buf: seq<Byte>, count: nat): (r: seq<nat>)
    requires DirSize(count) <= |buf|
    ensures |r| == count + 1 && forall i :: 0 <= i <= count ==> r[i] == OffsetAt(buf, count, i)
  {
    seq(count + 1, i requires 0 <= i <= count => OffsetAt(buf, count, i))
  }

  predicate Monotonic(offsets: seq<nat>) { forall i :: 0 <= i < |offsets| - 1 ==> offsets[i] <= offsets[i + 1] }

  function Decode(buf: seq<Byte>, count: nat): Option<Block>
  {
    if |buf| < DirSize(count) then None
    else
      var offsets := AllOffsets(buf, count);
      if count > 0 && offsets[0] != 0 then None
      else if |buf| < DirSize(count) + offsets[count] then None
      else if !Monotonic(offsets) then None
      else Some(Block(AllTs(buf, count), offsets, buf[DirSize(count)..DirSize(count) + offsets[count]]))
  }

  /** What makes the row accessors of a block safe. */
  ghost predicate Valid(b: Block)
  {
    && |b.offsets| == |b.ts| + 1
    && (forall i :: 0 <= i < |b.ts| ==> b.offsets[i] <= b.offsets[i + 1])
    && b.offsets[|b.ts|] == |b.blob|
  }

  lemma {:induction false} OffsetsOrdered(b: Block, i: nat, j: nat)
    requires Valid(b) && i <= j <= |b.ts|
    ensures b.offsets[i] <= b.offsets[j] <= |b.blob|
    decreases |b.ts| - i
  {
    if i < |b.ts| { OffsetsOrdered(b, i + 1, if j == i then i + 1 else j); }
  }

  /** Row `i` of a block. */
  function DataBytes(b: Block, i: nat): seq<Byte>
    requires Valid(b) && i < |b.ts|
  {
    OffsetsOrdered(b, i + 1, |b.ts|);
    b.blob[b.offsets[i]..b.offsets[i + 1]]
  }

  function Rows(b: Block): (r: seq<Entry>)
    requires Valid(b)
    ensures |r| == |b.ts| && forall i :: 0 <= i < |r| ==> r[i] == Entry(b.ts[i], DataBytes(b, i))
  {
    seq(|b.ts|, i requires 0 <= i < |b.ts| => Entry(b.ts[i], DataBytes(b, i)))
  }

  // ---------- decoding any buffer ----------

  lemma {:induction false} RowsTile(b: Block, n: nat)
    requires Valid(b) && n <= |b.ts|
    ensures b.offsets[0] <= b.offsets[n] <= |b.blob|
    ensures Blob(Rows(b)[..n]) == b.blob[b.offsets[0]..b.offsets[n]]
  {
    OffsetsOrdered(b, 0, n);
    if n > 0 {
      RowsTile(b, n - 1);
      var rs := Rows(b)[..n];
      assert rs[..n - 1] == Rows(b)[..n - 1] && rs[n - 1].data == DataBytes(b, n - 1);
    }
  }

  /** Rows from offset 0 on, laid end to end, are the blob. */
  lemma RowsAreBlob(b: Block)
    requires Valid(b) && b.offsets[0] == 0
    ensures Blob(Rows(b)) == b.blob
  {
    RowsTile(b, |b.ts|);
    assert Rows(b)[..|b.ts|] == Rows(b);
    assert b.blob[0..|b.blob|] == b.blob;
  }

  /**
   Any buffer is either rejected or gives a block whose row slices are in bounds and, for a
   positive row count, laid end to end are the blob.
   */
  lemma DecodedBlockTiles(buf: seq<Byte>, count: nat, b: Block)
    requires Decode(buf, count) == Some(b)
    ensures Valid(b) && |b.ts| == count
    ensures count > 0 ==> Blob(Rows(b)) == b.blob
  {
    hide Blob, Rows;
    if count > 0 { RowsAreBlob(b); }
  }

  // ---------- round trip ----------

  lemma {:induction false} TsBytesAt(es: seq<Entry>, i: nat)
    requires Timestamps(es) && i < |es|
    ensures TsBytes(es)[8 * i..8 * i + 8] == LE(ToU64(es[i].ts), 8)
  {
    if i < |es| - 1 {
      TsBytesAt(es[..|es| - 1], i);
      assert TsBytes(es)[8 * i..8 * i + 8] == TsBytes(es[..|es| - 1])[8 * i..8 * i + 8];
    }
  }

  lemma {:induction false} OffsetBytesAt(es: seq<Entry>, n: nat, i: nat)
    requires i < n <= |es| + 1
    ensures OffsetBytes(es, n)[4 * i..4 * i + 4] == LE(Total(es[..i]), 4)
  {
    if i < n - 1 {
      OffsetBytesAt(es, n - 1, i);
      assert OffsetBytes(es, n)[4 * i..4 * i + 4] == OffsetBytes(es, n - 1)[4 * i..4 * i + 4];
    }
  }

  /** The layout: 8 bytes of time for each row, 4 bytes for the start of each row and for the end, then the rows, each at its start. */
  lemma Layout(es: seq<Entry>, i: nat)
    requires Timestamps(es) && i < |es|
    ensures var n, buf := |es|, Encode(es);
            var start := 12 * n + 4 + Total(es[..i]);
            && |buf| == 12 * n + 4 + Total(es) && start + |es[i].data| <= |buf|
            && buf[8 * i..8 * i + 8] == LE(ToU64(es[i].ts), 8)
            && buf[8 * n + 4 * i..8 * n + 4 * i + 4] == LE(Total(es[..i]), 4)
            && buf[12 * n..12 * n + 4] == LE(Total(es), 4)
            && buf[start..start + |es[i].data|] == es[i].data
  {
    hide LE, Total, TsBytes, OffsetBytes, Blob, Encode;
    var n := |es|;
    assert Encode(es) == TsBytes(es) + OffsetBytes(es, n + 1) + Blob(es) by { EncodeIs(es); }
    BlobAt(es, i);
    LayoutDirectory(es, i, n);
    InThird(TsBytes(es) + OffsetBytes(es, n + 1), Blob(es), Total(es[..i]), |es[i].data|);
  }

  lemma EncodeIs(es: seq<Entry>)
    requires Timestamps(es)
    ensures Encode(es) == TsBytes(es) + OffsetBytes(es, |es| + 1) + Blob(es)
  {}

  lemma LayoutDirectory(es: seq<Entry>, i: nat, n: nat)
    requires Timestamps(es) && i < |es| == n
    ensures var buf := TsBytes(es) + OffsetBytes(es, n + 1) + Blob(es);
            && buf[8 * i..8 * i + 8] == LE(ToU64(es[i].ts), 8)
            && buf[8 * n + 4 * i..8 * n + 4 * i + 4] == LE(Total(es[..i]), 4)
            && buf[12 * n..12 * n + 4] == LE(Total(es), 4)
  {
    hide LE, Total, TsBytes, OffsetBytes, Blob;
    TsBytesAt(es, i);
    OffsetBytesAt(es, n + 1, i);
    OffsetBytesAt(es, n + 1, n);
    assert es[..n] == es;
    var a, b, c := TsBytes(es), OffsetBytes(es, n + 1), Blob(es);
    InFirst(a, b, c, 8 * i);
    InSecond(a, b, c, 4 * i);
    InSecond(a, b, c, 4 * n);
  }

  lemma InFirst(a: seq<Byte>, b: seq<Byte>, c: seq<Byte>, i: nat)
    requires i + 8 <= |a|
    ensures (a + b + c)[i..i + 8] == a[i..i + 8]
  {}

  lemma InSecond(a: seq<Byte>, b: seq<Byte>, c: seq<Byte>, j: nat)
    requires j + 4 <= |b|
    ensures (a + b + c)[|a| + j..|a| + j + 4] == b[j..j + 4]
  {}

  lemma InThird(ab: seq<Byte>, c: seq<Byte>, k: nat, m: nat)
    requires k + m <= |c|
    ensures (ab + c)[|ab| + k..|ab| + k + m] == c[k..k + m]
  {}

  lemma {:induction false} TotalMono(es: seq<Entry>, i: nat, j: nat)
    requires i <= j <= |es|
    ensures Total(es[..i]) <= Total(es[..j])
    decreases j - i
  {
    if i < j {
      TotalMono(es, i, j - 1);
      assert es[..j][..j - 1] == es[..j - 1];
    }
  }

  lemma {:induction false} BlobAt(es: seq<Entry>, i: nat)
    requires i < |es|
    ensures Total(es[..i]) + |es[i].data| == Total(es[..i + 1]) <= Total(es)
    ensures Blob(es)[Total(es[..i])..Total(es[..i + 1])] == es[i].data
  {
    assert es[..i + 1][..i] == es[..i];
    assert es[..|es|] == es;
    TotalMono(es, i + 1, |es|);
    if i < |es| - 1 {
      var front := es[..|es| - 1];
      BlobAt(front, i);
      assert front[..i] == es[..i] && front[..i + 1] == es[..i + 1];
      assert Blob(es)[Total(es[..i])..Total(es[..i + 1])] == Blob(front)[Total(es[..i])..Total(es[..i + 1])];
    }
  }

  lemma U64RoundTrip(x: int)
    requires IsInt64(x)
    ensures ToInt64(ToU64(x) % TWO_64) == x
  {
  }

  lemma EncodedTs(es: seq<Entry>, i: nat)
    requires Timestamps(es) && i < |es|
    ensures TsAt(Encode(es), i) == es[i].ts
  {
    TsBytesAt(es, i);
    var x := es[i].ts;
    hide LE, FromLE, Pow256, ToInt64, ToU64, Timestamps;
    var bytes := Encode(es)[8 * i..8 * i + 8];
    assert bytes == TsBytes(es)[8 * i..8 * i + 8] == LE(ToU64(x), 8);
    FromLEofLE(ToU64(x), 8);
    Pow8();
    U64RoundTrip(x);
  }

  lemma EncodedOffset(es: seq<Entry>, i: nat)
    requires Timestamps(es) && i <= |es|
    ensures OffsetAt(Encode(es), |es|, i) == Total(es[..i]) % TWO_32
  {
    hide LE, FromLE, Pow256;
    var n := |es|;
    OffsetBytesAt(es, n + 1, i);
    assert Encode(es)[8 * n + 4 * i..8 * n + 4 * i + 4] == OffsetBytes(es, n + 1)[4 * i..4 * i + 4];
    FromLEofLE(Total(es[..i]), 4);
    Pow4();
  }

  /** The block that entries under 4 GiB encode to. */
  function BlockOf(es: seq<Entry>): Block
  {
    Block(seq(|es|, i requires 0 <= i < |es| => es[i].ts),
          seq(|es| + 1, i requires 0 <= i <= |es| => Total(es[..i])),
          Blob(es))
  }

  lemma BlockOfRows(es: seq<Entry>)
    ensures Valid(BlockOf(es)) && Rows(BlockOf(es)) == es
  {
    var b := BlockOf(es);
    assert es[..|es|] == es;
    forall i | 0 <= i < |es| ensures b.offsets[i] <= b.offsets[i + 1] { TotalMono(es, i, i + 1); }
    forall i | 0 <= i < |es| ensures Rows(b)[i] == es[i] { BlobAt(es, i); }
  }

  lemma SmallBlockDecodes(es: seq<Entry>)
    requires Timestamps(es) && Total(es) < TWO_32
    ensures Decode(Encode(es), |es|) == Some(BlockOf(es))
  {
    hide Decode, TsAt, OffsetAt, Encode, Blob, Total, AllTs, AllOffsets, Timestamps;
    EncodedSlices(es);
    DecodeGives(Encode(es), |es|, BlockOf(es));
  }

  lemma DecodeGives(buf: seq<Byte>, count: nat, b: Block)
    requires |b.ts| == count && |b.offsets| == count + 1 && Monotonic(b.offsets) && b.offsets[0] == 0
    requires |buf| == DirSize(count) + b.offsets[count]
    requires forall i :: 0 <= i < count ==> TsAt(buf, i) == b.ts[i]
    requires forall i :: 0 <= i <= count ==> OffsetAt(buf, count, i) == b.offsets[i]
    requires buf[DirSize(count)..] == b.blob
    ensures Decode(buf, count) == Some(b)
  {
    hide TsAt, OffsetAt, AllTs, AllOffsets;
    assert AllTs(buf, count) == b.ts;
    assert AllOffsets(buf, count) == b.offsets;
    assert buf[DirSize(count)..DirSize(count) + b.offsets[count]] == buf[DirSize(count)..];
  }

  lemma EncodedSlices(es: seq<Entry>)
    requires Timestamps(es) && Total(es) < TWO_32
    ensures var n, buf, b := |es|, Encode(es), BlockOf(es);
            && |buf| == DirSize(n) + Total(es) && Total(es[..n]) == Total(es) && Total(es[..0]) == 0
            && (forall i :: 0 <= i < n ==> TsAt(buf, i) == b.ts[i])
            && (forall i :: 0 <= i <= n ==> OffsetAt(buf, n, i) == b.offsets[i])
            && Monotonic(b.offsets)
            && buf[DirSize(n)..] == Blob(es)
  {
    hide TsAt, OffsetAt;
    var n, buf, b := |es|, Encode(es), BlockOf(es);
    assert es[..n] == es && es[..0] == [];
    forall i | 0 <= i < n ensures TsAt(buf, i) == b.ts[i] { EncodedTs(es, i); }
    forall i | 0 <= i <= n ensures OffsetAt(buf, n, i) == b.offsets[i] {
      EncodedOffset(es, i);
      TotalMono(es, i, n);
    }
    forall i | 0 <= i < n ensures b.offsets[i] <= b.offsets[i + 1] { TotalMono(es, i, i + 1); }
  }

  /** Encoding and decoding gives the entries back if and only if their lines total less than 4 GiB. */
  lemma RoundTripIffUnder4GiB(es: seq<Entry>)
    requires Timestamps(es)
    ensures var r := Decode(Encode(es), |es|);
            (r.Some? && Valid(r.value) && Rows(r.value) == es) <==> Total(es) < TWO_32
  {
    if Total(es) < TWO_32 {
      SmallBlockDecodes(es);
      BlockOfRows(es);
    } else {
      var r := Decode(Encode(es), |es|);
      if r.Some? {
        DecodedBlockTiles(Encode(es), |es|, Decode(Encode(es), |es|).value);
        EncodedOffset(es, |es|);
        assert es[..|es|] == es;
        assert |r.value.blob| == Total(es) % TWO_32 < Total(es);
        assert |es| > 0;
      }
    }
  }
}
