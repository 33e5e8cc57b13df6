/** The block codec as loops. */
module BlockCodec {
  // The block encoder and decoder as loops over a buffer, proved against the format.

  import opened Prelude
  import opened BinBlock

  /** Stores the low `n` bytes of `x` at `off`, lowest first. */
  method PutLE(a: array<Byte>, off: nat, x: nat, n: nat)
    requires off + n <= a.Length
    modifies a
    ensures a[..off] == old(a[..off]) && a[off..off + n] == LE(x, n) && a[off + n..] == old(a[off + n..])
  {
    var v := x;
    var k := 0;
    while k < n
      invariant 0 <= k <= n && a[..off] == old(a[..off]) && a[off + n..] == old(a[off + n..])
      invariant a[off..off + k] + LE(v, n - k) == LE(x, n)
    {
      ghost var rest := LE(v, n - k);
      a[off + k] := v % 256;
      assert a[off..off + k + 1] == a[off..off + k] + [v % 256];
      assert rest == [v % 256] + LE(v / 256, n - k - 1);
      v := v / 256;
      k := k + 1;
    }
  }

  lemma TsBytesSnoc(es: seq<Entry>, i: nat)
    requires Timestamps(es) && i < |es|
    ensures TsBytes(es[..i + 1]) == TsBytes(es[..i]) + LE(ToU64(es[i].ts), 8)
  {
    assert es[..i + 1][..i] == es[..i];
  }

  method PutTimestamps(dst: array<Byte>, es: seq<Entry>)
    requires Timestamps(es) && 8 * |es| <= dst.Length
    modifies dst
    ensures dst[..8 * |es|] == TsBytes(es)
  {
    var i := 0;
    while i < |es|
      invariant 0 <= i <= |es|
      invariant dst[..8 * i] == TsBytes(es[..i])
    {
      PutLE(dst, 8 * i, ToU64(es[i].ts), 8);
      TsBytesSnoc(es, i);
      assert dst[..8 * i + 8] == dst[..8 * i] + dst[8 * i..8 * i + 8];
      i := i + 1;
    }
    assert es[..i] == es;
  }

  /** Writes the running offsets and the end offset, keeping what is in front of `start`. */
  method PutOffsets(dst: array<Byte>, es: seq<Entry>, start: nat)
    requires start + 4 * (|es| + 1) <= dst.Length
    modifies dst
    ensures dst[..start] == old(dst[..start])
    ensures dst[start..start + 4 * (|es| + 1)] == OffsetBytes(es, |es| + 1)
  {
    var off := 0;
    var i := 0;
    while i < |es|
      invariant 0 <= i <= |es| && off == Total(es[..i])
      invariant dst[..start] == old(dst[..start])
      invariant dst[start..start + 4 * i] == OffsetBytes(es, i)
    {
      PutOffset(dst, es, start, i, off);
      assert es[..i + 1][..i] == es[..i];
      off := off + |es[i].data|;
      i := i + 1;
    }
    PutOffset(dst, es, start, i, off);
  }

  method PutOffset(dst: array<Byte>, ghost es: seq<Entry>, start: nat, i: nat, off: nat)
    requires i <= |es| && start + 4 * (i + 1) <= dst.Length && off == Total(es[..i])
    requires dst[start..start + 4 * i] == OffsetBytes(es, i)
    modifies dst
    ensures dst[..start] == old(dst[..start])
    ensures dst[start..start + 4 * (i + 1)] == OffsetBytes(es, i + 1)
  {
    hide Total, LE, OffsetBytes;
    ghost var at := start + 4 * i;
    ghost var s := dst[..at];
    PutLE(dst, start + 4 * i, off, 4);
    NextOffset(es, i);
    Grown(s, dst[at..at + 4], dst[..at + 4], start);
  }

  /** Behind bytes that stay, `four` more: what is in front of `start` and what is from there on. */
  lemma Grown(s: seq<Byte>, four: seq<Byte>, t: seq<Byte>, start: nat)
    requires start <= |s| && t == s + four
    ensures t[..start] == s[..start] && t[start..] == s[start..] + four
  {}

  lemma NextOffset(es: seq<Entry>, i: nat)
    requires i <= |es|
    ensures OffsetBytes(es, i + 1) == OffsetBytes(es, i) + LE(Total(es[..i]), 4)
  {}

  method PutBlob(dst: array<Byte>, es: seq<Entry>, start: nat)
    requires start + Total(es) <= dst.Length
    modifies dst
    ensures dst[..start] == old(dst[..start])
    ensures dst[start..start + Total(es)] == Blob(es)
  {
    var pos := 0;
    var i := 0;
    assert es[..|es|] == es;
    assert Total(es[..0]) == 0 && Blob(es[..0]) == [];
    hide Total, Blob;
    while i < |es|
      invariant 0 <= i <= |es| && pos == Total(es[..i]) <= Total(es)
      invariant dst[..start] == old(dst[..start])
      invariant dst[start..start + pos] == Blob(es[..i])
    {
      var d := es[i].data;
      BlobSnoc(es, i);
      CopyInto(dst, start + pos, d);
      assert dst[start..start + pos + |d|] == dst[start..start + pos] + d;
      pos := pos + |d|;
      i := i + 1;
    }
    assert es[..i] == es;
  }

  lemma BlobSnoc(es: seq<Entry>, i: nat)
    requires i < |es|
    ensures Blob(es[..i + 1]) == Blob(es[..i]) + es[i].data
    ensures Total(es[..i + 1]) == Total(es[..i]) + |es[i].data| <= Total(es)
  {
    assert es[..i + 1][..i] == es[..i];
    assert es[..|es|] == es;
    TotalMono(es, i + 1, |es|);
  }

  method CopyInto(dst: array<Byte>, off: nat, d: seq<Byte>)
    requires off + |d| <= dst.Length
    modifies dst
    ensures dst[..off] == old(dst[..off]) && dst[off..off + |d|] == d
  {
    var k := 0;
    while k < |d|
      invariant 0 <= k <= |d| && dst[..off] == old(dst[..off]) && dst[off..off + k] == d[..k]
    {
      dst[off + k] := d[k];
      assert dst[off..off + k + 1] == dst[off..off + k] + [d[k]];
      k := k + 1;
    }
  }

  method TotalLength(es: seq<Entry>) returns (n: nat)
    ensures n == Total(es)
  {
    n := 0;
    var i := 0;
    while i < |es|
      invariant 0 <= i <= |es| && n == Total(es[..i])
    {
      BlobSnoc(es, i);
      n := n + |es[i].data|;
      i := i + 1;
    }
    assert es[..i] == es;
  }

  method EncodeBinBlock(es: seq<Entry>) returns (dst: array<Byte>)
    requires Timestamps(es)
    ensures fresh(dst) && dst[..] == Encode(es)
  {
    var total := TotalLength(es);
    var n := |es|;
    dst := new Byte[DirSize(n) + total];
    PutTimestamps(dst, es);
    PutOffsets(dst, es, 8 * n);
    ghost var head := dst[..DirSize(n)];
    assert head == TsBytes(es) + OffsetBytes(es, n + 1) by {
      assert head == dst[..8 * n] + dst[8 * n..DirSize(n)];
    }
    PutBlob(dst, es, DirSize(n));
    assert dst[..] == dst[..DirSize(n)] + dst[DirSize(n)..];
    assert dst[DirSize(n)..] == dst[DirSize(n)..DirSize(n) + total];
  }

  /** Reads one little-endian integer. */
  method GetLE(buf: seq<Byte>, off: nat, n: nat) returns (x: nat)
    requires off + n <= |buf|
    ensures x == FromLE(buf[off..off + n])
  {
    x := 0;
    var k := n;
    while k > 0
      invariant 0 <= k <= n && x == FromLE(buf[off + k..off + n])
    {
      k := k - 1;
      ghost var tail := buf[off + k..off + n];
      assert tail[1..] == buf[off + k + 1..off + n];
      x := buf[off + k] + 256 * x;
    }
  }

  method DecodeBinBlock(buf: seq<Byte>, count: nat) returns (r: Option<Block>)
    ensures r == Decode(buf, count)
  {
    hide FromLE;
    var end := DirSize(count);
    if |buf| < end { return None; }
    var ts := ReadTimestamps(buf, count);
    var offsets := ReadOffsets(buf, count);
    if count > 0 && offsets[0] != 0 { return None; }
    if |buf| < end + offsets[count] { return None; }
    var i := 0;
    while i < count
      invariant 0 <= i <= count
      invariant forall k :: 0 <= k < i ==> offsets[k] <= offsets[k + 1]
    {
      if offsets[i + 1] < offsets[i] { return None; }
      i := i + 1;
    }
    r := Some(Block(ts, offsets, buf[end..end + offsets[count]]));
  }

  method ReadTimestamps(buf: seq<Byte>, count: nat) returns (ts: seq<int>)
    requires DirSize(count) <= |buf|
    ensures ts == AllTs(buf, count)
  {
    ts := [];
    var i := 0;
    while i < count
      invariant 0 <= i <= count && |ts| == i
      invariant forall k :: 0 <= k < i ==> ts[k] == TsAt(buf, k)
    {
      var u := GetLE(buf, 8 * i, 8);
      ts := ts + [ToInt64(u)];
      i := i + 1;
    }
    assert ts == AllTs(buf, count);
  }

  method ReadOffsets(buf: seq<Byte>, count: nat) returns (offsets: seq<nat>)
    requires DirSize(count) <= |buf|
    ensures offsets == AllOffsets(buf, count)
  {
    offsets := [];
    var i := 0;
    while i < count + 1
      invariant 0 <= i <= count + 1 && |offsets| == i
      invariant forall k :: 0 <= k < i ==> offsets[k] == OffsetAt(buf, count, k)
    {
      var u := GetLE(buf, 8 * count + 4 * i, 4);
      offsets := offsets + [u];
      i := i + 1;
    }
    assert offsets == AllOffsets(buf, count);
  }
}
