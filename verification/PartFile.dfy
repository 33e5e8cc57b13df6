/**
 The part file: rows cut into blocks, each encoded and compressed on its own, behind a
 directory of block headers. Compression is any lossless pair of functions and the bloom
 of a block any function of its rows.
 */
module PartFile {
  import opened Prelude
  import opened BinBlock

  const HEADER_SIZE := 16
  const DEFAULT_ROWS := 512
  const VERSION: Byte := 3
  const MAGIC: seq<Byte> := [0x53, 0x48, 0x4D, 0x50] // "SHMP"

  datatype Header = Header(offset: nat, size: nat, count: nat, minTs: int, maxTs: int, bloom: seq<Byte>)

  datatype Format = Format(
    compress: seq<Byte> -> seq<Byte>,
    decompress: seq<Byte> -> Option<seq<Byte>>,
    bloomOf: seq<Entry> -> seq<Byte>)

  ghost predicate Lossless(f: Format) { forall x :: f.decompress(f.compress(x)) == Some(x) }

  // ---------- cutting rows into blocks ----------

  function Cut(es: seq<Entry>, rows: nat): seq<seq<Entry>>
    requires rows > 0
  {
    if es == [] then []
    else if |es| <= rows then [es]
    else [es[..rows]] + Cut(es[rows..], rows)
  }

  function Flat(bs: seq<seq<Entry>>): seq<Entry>
  {
    if bs == [] then [] else bs[0] + Flat(bs[1..])
  }

  lemma {:induction false} CutIsPartition(es: seq<Entry>, rows: nat)
    requires rows > 0
    ensures Flat(Cut(es, rows)) == es
    ensures forall i :: 0 <= i < |Cut(es, rows)| ==> 0 < |Cut(es, rows)[i]| <= rows
    ensures forall i :: 0 <= i < |Cut(es, rows)| - 1 ==> |Cut(es, rows)[i]| == rows
    decreases |es|
  {
    if es == [] {
    } else if |es| <= rows {
      assert Flat([es]) == es + Flat([]);
    } else {
      CutIsPartition(es[rows..], rows);
      var d := Cut(es[rows..], rows);
      assert ([es[..rows]] + d)[1..] == d;
      assert es == es[..rows] + es[rows..];
    }
  }

  /** Full blocks in front of a remainder are cut the same way. */
  lemma {:induction false} CutOfFull(bs: seq<seq<Entry>>, rest: seq<Entry>, rows: nat)
    requires rows > 0 && rest != [] && forall i :: 0 <= i < |bs| ==> |bs[i]| == rows
    ensures Cut(Flat(bs) + rest, rows) == bs + Cut(rest, rows)
  {
    hide Cut;
    if bs == [] {
      assert Flat(bs) + rest == rest;
    } else {
      CutOfFull(bs[1..], rest, rows);
      var tail := Flat(bs[1..]) + rest;
      CutFront(bs[0], tail, rows);
      assert Flat(bs) + rest == bs[0] + tail;
      assert bs == [bs[0]] + bs[1..];
    }
  }

  lemma CutFront(b: seq<Entry>, tail: seq<Entry>, rows: nat)
    requires rows > 0 && |b| == rows && tail != []
    ensures Cut(b + tail, rows) == [b] + Cut(tail, rows)
  {
    assert (b + tail)[..rows] == b && (b + tail)[rows..] == tail;
  }

  lemma {:induction false} FlatAppend(a: seq<seq<Entry>>, b: seq<seq<Entry>>)
    ensures Flat(a + b) == Flat(a) + Flat(b)
  {
    if a == [] {
      assert a + b == b;
    } else {
      assert (a + b)[1..] == a[1..] + b;
      FlatAppend(a[1..], b);
    }
  }

  lemma CutOne(b: seq<Entry>, rows: nat)
    requires 0 < |b| <= rows
    ensures Cut(b, rows) == [b]
  {
  }

  lemma CutDone(bs: seq<seq<Entry>>, buf: seq<Entry>, rows: nat)
    requires rows > 0 && |buf| < rows && forall i :: 0 <= i < |bs| ==> |bs[i]| == rows
    ensures Cut(Flat(bs) + buf, rows) == bs + if buf == [] then [] else [buf]
  {
    hide Cut;
    if buf != [] {
      CutOfFull(bs, buf, rows);
      CutOne(buf, rows);
    } else if bs != [] {
      var n := |bs| - 1;
      FlatSnoc(bs[..n], bs[n]);
      assert bs == bs[..n] + [bs[n]];
      assert Flat(bs) + buf == Flat(bs[..n]) + bs[n];
      CutOfFull(bs[..n], bs[n], rows);
      CutOne(bs[n], rows);
    } else {
      assert Flat(bs) + buf == [];
      CutNone(rows);
    }
  }

  lemma CutNone(rows: nat)
    requires rows > 0
    ensures Cut([], rows) == []
  {
  }

  lemma FlatNone()
    ensures Flat([]) == []
  {
  }

  lemma FlatSnoc(bs: seq<seq<Entry>>, b: seq<Entry>)
    ensures Flat(bs + [b]) == Flat(bs) + b
  {
    FlatAppend(bs, [b]);
    assert Flat([b]) == b + Flat([]);
  }

  /** The streaming writer's loop: rows are buffered and a block leaves when the buffer is full. */
  method CutStream(es: seq<Entry>, blockSize: int) returns (blocks: seq<seq<Entry>>)
    ensures blocks == Cut(es, if blockSize <= 0 then DEFAULT_ROWS else blockSize)
  {
    hide Cut, Flat;
    var rows: nat := if blockSize <= 0 then DEFAULT_ROWS else blockSize;
    FlatNone();
    blocks := [];
    var buf := [];
    var i := 0;
    while i < |es|
      invariant 0 <= i <= |es| && |buf| < rows
      invariant Flat(blocks) + buf == es[..i]
      invariant forall k :: 0 <= k < |blocks| ==> |blocks[k]| == rows
    {
      buf := buf + [es[i]];
      assert Flat(blocks) + buf == es[..i + 1];
      if |buf| == rows {
        FlatSnoc(blocks, buf);
        blocks := blocks + [buf];
        buf := [];
      }
      i := i + 1;
    }
    assert es[..i] == es;
    CutDone(blocks, buf, rows);
    if |buf| > 0 { blocks := blocks + [buf]; }
  }

  // ---------- layout ----------

  ghost predicate Writable(b: seq<Entry>)
  {
    b != [] && Timestamps(b) && Total(b) < TWO_32 && |b| < TWO_32 / 2
  }

  ghost predicate AllWritable(bs: seq<seq<Entry>>) { forall i :: 0 <= i < |bs| ==> Writable(bs[i]) }

  function Payload(f: Format, bs: seq<seq<Entry>>): seq<Byte>
    requires AllWritable(bs)
  {
    if bs == [] then [] else Payload(f, bs[..|bs| - 1]) + f.compress(Encode(bs[|bs| - 1]))
  }

  /** Headers with offsets counted from the start of the payload. */
  function Headers(f: Format, bs: seq<seq<Entry>>): (r: seq<Header>)
    requires AllWritable(bs)
    ensures |r| == |bs|
  {
    if bs == [] then []
    else
      var front, b := bs[..|bs| - 1], bs[|bs| - 1];
      Headers(f, front) + [Header(|Payload(f, front)|, |f.compress(Encode(b))|, |b|, b[0].ts, b[|b| - 1].ts, f.bloomOf(b))]
  }

  ghost predicate HeaderFits(h: Header, base: nat)
  {
    && base + h.offset < TWO_63 && h.size < TWO_63 && h.count < TWO_32 / 2
    && IsInt64(h.minTs) && IsInt64(h.maxTs) && |h.bloom| < TWO_32
  }

  function DirRow(h: Header, base: nat): (r: seq<Byte>)
    requires IsInt64(h.minTs) && IsInt64(h.maxTs)
    ensures |r| == 40 + |h.bloom|
  {
    LE(base + h.offset, 8) + LE(h.size, 8) + LE(h.count, 4) + LE(ToU64(h.minTs), 8) + LE(ToU64(h.maxTs), 8)
    + LE(|h.bloom|, 4) + h.bloom
  }

  ghost predicate AllTimes(hs: seq<Header>) { forall i :: 0 <= i < |hs| ==> IsInt64(hs[i].minTs) && IsInt64(hs[i].maxTs) }

  function DirLen(hs: seq<Header>): nat
  {
    if hs == [] then 0 else 40 + |hs[0].bloom| + DirLen(hs[1..])
  }

  function DirBytes(hs: seq<Header>, base: nat): (r: seq<Byte>)
    requires AllTimes(hs)
    ensures |r| == DirLen(hs)
  {
    if hs == [] then [] else DirRow(hs[0], base) + DirBytes(hs[1..], base)
  }

  function FileBytes(f: Format, bs: seq<seq<Entry>>): seq<Byte>
    requires AllWritable(bs) && AllTimes(Headers(f, bs))
  {
    var hs := Headers(f, bs);
    MAGIC + [VERSION, 0, 0, 0] + LE(|hs|, 8) + DirBytes(hs, HEADER_SIZE + DirLen(hs)) + Payload(f, bs)
  }

  // ---------- reading ----------

  function ParseRow(b: seq<Byte>): Option<Header>
  {
    if |b| < 40 then None
    else
      var n := FromLE(b[36..40]);
      if |b| < 40 + n then None
      else Some(Header(FromLE(b[0..8]), FromLE(b[8..16]), FromLE(b[16..20]),
                       ToInt64(FromLE(b[20..28])), ToInt64(FromLE(b[28..36])), b[40..40 + n]))
  }

  function ParseDir(b: seq<Byte>, n: nat): Option<seq<Header>>
    decreases n
  {
    if n == 0 then Some([])
    else
      var h := ParseRow(b);
      if h.None? then None
      else
        var rest := ParseDir(b[40 + |h.value.bloom|..], n - 1);
        if rest.None? then None else Some([h.value] + rest.value)
  }

  function Open(file: seq<Byte>): Option<seq<Header>>
  {
    if |file| < HEADER_SIZE || file[..4] != MAGIC || file[4] != VERSION then None
    else ParseDir(file[HEADER_SIZE..], FromLE(file[8..16]))
  }

  function ReadBlock(f: Format, file: seq<Byte>, h: Header): Option<Block>
  {
    if |file| < h.offset + h.size then None
    else
      var plain := f.decompress(file[h.offset..h.offset + h.size]);
      if plain.None? then None else Decode(plain.value, h.count)
  }

  // ---------- the directory reads back ----------

  lemma LE8(x: nat)
    requires x < TWO_64
    ensures FromLE(LE(x, 8)) == x
  {
    hide LE, FromLE, Pow256;
    FromLEofLE(x, 8);
    Pow8();
  }

  lemma LE4(x: nat)
    requires x < TWO_32
    ensures FromLE(LE(x, 4)) == x
  {
    hide LE, FromLE, Pow256;
    FromLEofLE(x, 4);
    Pow4();
  }

  lemma Int64Back(x: int)
    requires IsInt64(x)
    ensures ToU64(x) < TWO_64 && ToInt64(ToU64(x)) == x
  {
  }

  lemma RowSlices(h: Header, base: nat, rest: seq<Byte>)
    requires HeaderFits(h, base)
    ensures var b := DirRow(h, base) + rest; var n := |h.bloom|;
            && b[0..8] == LE(base + h.offset, 8) && b[8..16] == LE(h.size, 8) && b[16..20] == LE(h.count, 4)
            && b[20..28] == LE(ToU64(h.minTs), 8) && b[28..36] == LE(ToU64(h.maxTs), 8)
            && b[36..40] == LE(n, 4) && b[40..40 + n] == h.bloom && b[40 + n..] == rest
  {
    hide LE, ToU64;
  }

  function Shift(h: Header, base: nat): Header { h.(offset := base + h.offset) }

  lemma RowParses(h: Header, base: nat, rest: seq<Byte>)
    requires HeaderFits(h, base)
    ensures ParseRow(DirRow(h, base) + rest) == Some(Shift(h, base))
  {
    hide LE, FromLE, ToU64, ToInt64, DirRow;
    RowSlices(h, base, rest);
    LE8(base + h.offset);
    LE8(h.size);
    LE4(h.count);
    Int64Back(h.minTs);
    Int64Back(h.maxTs);
    LE8(ToU64(h.minTs));
    LE8(ToU64(h.maxTs));
    LE4(|h.bloom|);
  }

  function ShiftAll(hs: seq<Header>, base: nat): (r: seq<Header>)
    ensures |r| == |hs| && forall i :: 0 <= i < |hs| ==> r[i] == Shift(hs[i], base)
  {
    if hs == [] then [] else [Shift(hs[0], base)] + ShiftAll(hs[1..], base)
  }

  lemma ParseDirStep(b: seq<Byte>, n: nat, h: Header, rest: seq<Header>)
    requires n > 0 && |b| >= 40 + |h.bloom|
    requires ParseRow(b) == Some(h) && ParseDir(b[40 + |h.bloom|..], n - 1) == Some(rest)
    ensures ParseDir(b, n) == Some([h] + rest)
  {
    hide ParseRow;
  }

  lemma FitTimes(hs: seq<Header>, base: nat)
    requires forall i :: 0 <= i < |hs| ==> HeaderFits(hs[i], base)
    ensures AllTimes(hs)
  {
    forall i | 0 <= i < |hs| ensures IsInt64(hs[i].minTs) && IsInt64(hs[i].maxTs) { assert HeaderFits(hs[i], base); }
  }

  lemma {:induction false} DirParses(hs: seq<Header>, base: nat, rest: seq<Byte>)
    requires forall i :: 0 <= i < |hs| ==> HeaderFits(hs[i], base)
    ensures AllTimes(hs) && ParseDir(DirBytes(hs, base) + rest, |hs|) == Some(ShiftAll(hs, base))
  {
    hide ParseRow, ParseDir, DirRow, HeaderFits, DirLen, AllTimes;
    FitTimes(hs, base);
    if hs == [] {
      ParseDirNone(DirBytes(hs, base) + rest);
    } else {
      DirParses(hs[1..], base, rest);
      var tail := DirBytes(hs[1..], base) + rest;
      RowParses(hs[0], base, tail);
      FitTimes([hs[0]], base);
      DirBytesStep(hs, base, rest);
      ParseDirStep(DirBytes(hs, base) + rest, |hs|, Shift(hs[0], base), ShiftAll(hs[1..], base));
    }
  }

  lemma ParseDirNone(b: seq<Byte>)
    ensures ParseDir(b, 0) == Some([])
  {
  }

  lemma DirBytesStep(hs: seq<Header>, base: nat, rest: seq<Byte>)
    requires hs != [] && AllTimes(hs)
    ensures AllTimes(hs[1..])
    ensures var b := DirBytes(hs, base) + rest; var tail := DirBytes(hs[1..], base) + rest;
            b == DirRow(hs[0], base) + tail && b[40 + |hs[0].bloom|..] == tail
  {
    hide DirRow;
    var tail := DirBytes(hs[1..], base) + rest;
    assert DirBytes(hs, base) + rest == DirRow(hs[0], base) + tail;
  }

  // ---------- the payload reads back ----------

  function HeaderOf(f: Format, bs: seq<seq<Entry>>, i: nat): Header
    requires AllWritable(bs) && i < |bs|
  {
    var b := bs[i];
    Header(|Payload(f, bs[..i])|, |f.compress(Encode(b))|, |b|, b[0].ts, b[|b| - 1].ts, f.bloomOf(b))
  }

  lemma {:induction false} HeadersAre(f: Format, bs: seq<seq<Entry>>, i: nat)
    requires AllWritable(bs) && i < |bs|
    ensures Headers(f, bs)[i] == HeaderOf(f, bs, i)
  {
    hide Payload, Encode, Timestamps, Total;
    var front := bs[..|bs| - 1];
    if i < |front| {
      HeadersAre(f, front, i);
      assert front[..i] == bs[..i];
    }
  }

  lemma PayloadSnoc(f: Format, bs: seq<seq<Entry>>, i: nat)
    requires AllWritable(bs) && i < |bs|
    ensures Payload(f, bs[..i + 1]) == Payload(f, bs[..i]) + f.compress(Encode(bs[i]))
  {
    assert bs[..i + 1][..i] == bs[..i];
  }

  lemma {:induction false} PayloadPrefix(f: Format, bs: seq<seq<Entry>>, i: nat)
    requires AllWritable(bs) && i <= |bs|
    ensures Payload(f, bs[..i]) <= Payload(f, bs)
    decreases |bs| - i
  {
    if i == |bs| {
      assert bs[..i] == bs;
    } else {
      PayloadPrefix(f, bs, i + 1);
      PayloadSnoc(f, bs, i);
    }
  }

  /** The bytes a header points to are its compressed block; blocks lie end to end. */
  lemma PayloadAt(f: Format, bs: seq<seq<Entry>>, i: nat)
    requires AllWritable(bs) && i < |bs|
    ensures var h := HeaderOf(f, bs, i);
            && h.offset + h.size == |Payload(f, bs[..i + 1])| <= |Payload(f, bs)|
            && Payload(f, bs)[h.offset..h.offset + h.size] == f.compress(Encode(bs[i]))
  {
    PayloadSnoc(f, bs, i);
    PayloadPrefix(f, bs, i + 1);
    var p, q := Payload(f, bs), Payload(f, bs[..i + 1]);
    assert p[..|q|] == q;
    var o := |Payload(f, bs[..i])|;
    assert p[o..|q|] == q[o..];
  }

  // ---------- the file ----------

  ghost predicate Fits(f: Format, bs: seq<seq<Entry>>)
    requires AllWritable(bs)
  {
    && HEADER_SIZE + DirLen(Headers(f, bs)) + |Payload(f, bs)| < TWO_63
    && |bs| < TWO_64
    && forall i :: 0 <= i < |bs| ==> |f.bloomOf(bs[i])| < TWO_32
  }

  function Base(f: Format, bs: seq<seq<Entry>>): nat
    requires AllWritable(bs)
  {
    HEADER_SIZE + DirLen(Headers(f, bs))
  }

  lemma HeadersFit(f: Format, bs: seq<seq<Entry>>)
    requires AllWritable(bs) && Fits(f, bs)
    ensures AllTimes(Headers(f, bs))
    ensures forall i :: 0 <= i < |bs| ==> HeaderFits(Headers(f, bs)[i], Base(f, bs))
  {
    forall i | 0 <= i < |bs| ensures HeaderFits(Headers(f, bs)[i], Base(f, bs)) {
      HeadersAre(f, bs, i);
      PayloadAt(f, bs, i);
      assert Writable(bs[i]);
    }
    forall i | 0 <= i < |bs| ensures IsInt64(Headers(f, bs)[i].minTs) && IsInt64(Headers(f, bs)[i].maxTs) {
      assert HeaderFits(Headers(f, bs)[i], Base(f, bs));
    }
  }

  lemma FileSlices(f: Format, bs: seq<seq<Entry>>)
    requires AllWritable(bs) && Fits(f, bs) && AllTimes(Headers(f, bs))
    ensures var file := FileBytes(f, bs); var base := Base(f, bs); var hs := Headers(f, bs);
            && |file| == base + |Payload(f, bs)|
            && file[..4] == MAGIC && file[4] == VERSION && file[8..16] == LE(|hs|, 8)
            && file[HEADER_SIZE..] == DirBytes(hs, base) + Payload(f, bs)
            && file[base..] == Payload(f, bs)
  {
    hide LE, DirBytes, Payload, Headers, DirLen;
  }

  /** Opening a written file gives back its headers, moved behind the directory. */
  lemma OpenReadsHeaders(f: Format, bs: seq<seq<Entry>>)
    requires AllWritable(bs) && Fits(f, bs)
    ensures AllTimes(Headers(f, bs))
    ensures Open(FileBytes(f, bs)) == Some(ShiftAll(Headers(f, bs), Base(f, bs)))
  {
    hide LE, FromLE, DirBytes, ParseDir, FileBytes, Payload, HeaderFits;
    HeadersFit(f, bs);
    FileSlices(f, bs);
    LE8(|bs|);
    DirParses(Headers(f, bs), Base(f, bs), Payload(f, bs));
  }

  lemma ReadAt(f: Format, file: seq<Byte>, h: Header, plain: seq<Byte>)
    requires Lossless(f) && h.offset + h.size <= |file|
    requires file[h.offset..h.offset + h.size] == f.compress(plain)
    ensures ReadBlock(f, file, h) == Decode(plain, h.count)
  {
    hide Decode;
  }

  lemma FileAt(f: Format, bs: seq<seq<Entry>>, i: nat)
    requires AllWritable(bs) && Fits(f, bs) && i < |bs|
    ensures AllTimes(Headers(f, bs))
    ensures var file := FileBytes(f, bs); var h := Shift(Headers(f, bs)[i], Base(f, bs));
            && h.count == |bs[i]| && h.offset + h.size <= |file|
            && file[h.offset..h.offset + h.size] == f.compress(Encode(bs[i]))
  {
    hide FileBytes, Payload, Headers, Encode, Writable, Fits;
    HeadersFit(f, bs);
    FileSlices(f, bs);
    HeadersAre(f, bs, i);
    PayloadAt(f, bs, i);
    var file, base, h := FileBytes(f, bs), Base(f, bs), HeaderOf(f, bs, i);
    assert file[base + h.offset..base + h.offset + h.size] == file[base..][h.offset..h.offset + h.size];
  }

  /** Reading block `i` through its header gives back its rows. */
  lemma ReadBlockReadsRows(f: Format, bs: seq<seq<Entry>>, i: nat)
    requires AllWritable(bs) && Fits(f, bs) && Lossless(f) && i < |bs|
    ensures AllTimes(Headers(f, bs))
    ensures var b := ReadBlock(f, FileBytes(f, bs), Shift(Headers(f, bs)[i], Base(f, bs)));
            b == Some(BlockOf(bs[i])) && Valid(b.value) && BinBlock.Rows(b.value) == bs[i]
  {
    hide FileBytes, Headers, Encode, Decode, BlockOf, Fits, ReadBlock, Valid;
    assert Writable(bs[i]);
    FileAt(f, bs, i);
    ReadAt(f, FileBytes(f, bs), Shift(Headers(f, bs)[i], Base(f, bs)), Encode(bs[i]));
    SmallBlockDecodes(bs[i]);
    BlockOfRows(bs[i]);
  }

  /** Blocks tile the file from the end of the directory to the end of the file. */
  lemma BlocksTileFile(f: Format, bs: seq<seq<Entry>>)
    requires AllWritable(bs) && Fits(f, bs) && bs != []
    ensures AllTimes(Headers(f, bs))
    ensures var hs := ShiftAll(Headers(f, bs), Base(f, bs));
            && hs[0].offset == Base(f, bs)
            && (forall i :: 0 <= i < |hs| - 1 ==> hs[i + 1].offset == hs[i].offset + hs[i].size)
            && hs[|hs| - 1].offset + hs[|hs| - 1].size == |FileBytes(f, bs)|
  {
    hide FileBytes, Fits, DirLen, Encode, Headers, AllTimes, Writable;
    HeadersFit(f, bs);
    FileSlices(f, bs);
    var hs := ShiftAll(Headers(f, bs), Base(f, bs));
    HeadersAre(f, bs, 0);
    assert bs[..0] == [] && bs[..|bs|] == bs;
    forall i | 0 <= i < |hs| - 1 ensures hs[i + 1].offset == hs[i].offset + hs[i].size {
      HeadersAre(f, bs, i);
      HeadersAre(f, bs, i + 1);
      PayloadAt(f, bs, i);
    }
    HeadersAre(f, bs, |bs| - 1);
    PayloadAt(f, bs, |bs| - 1);
  }

  lemma {:induction false} FlatSorted(bs: seq<seq<Entry>>, i: nat)
    requires SortedByTime(Flat(bs)) && i < |bs|
    ensures SortedByTime(bs[i])
  {
    var rest := Flat(bs[1..]);
    assert Flat(bs) == bs[0] + rest;
    if i == 0 {
      forall a, b | 0 <= a < b < |bs[0]| ensures bs[0][a].ts <= bs[0][b].ts {
        assert Flat(bs)[a] == bs[0][a] && Flat(bs)[b] == bs[0][b];
      }
    } else {
      forall a, b | 0 <= a < b < |rest| ensures rest[a].ts <= rest[b].ts {
        assert Flat(bs)[|bs[0]| + a] == rest[a] && Flat(bs)[|bs[0]| + b] == rest[b];
      }
      FlatSorted(bs[1..], i - 1);
    }
  }

  /** With sorted rows, a header's times bound the rows of its block, tightly. */
  lemma HeaderTimesBound(f: Format, bs: seq<seq<Entry>>, i: nat, r: Entry)
    requires AllWritable(bs) && SortedByTime(Flat(bs)) && i < |bs| && r in bs[i]
    ensures Headers(f, bs)[i].minTs <= r.ts <= Headers(f, bs)[i].maxTs
    ensures Headers(f, bs)[i].minTs == bs[i][0].ts && Headers(f, bs)[i].maxTs == bs[i][|bs[i]| - 1].ts
  {
    HeadersAre(f, bs, i);
    FlatSorted(bs, i);
    var k :| 0 <= k < |bs[i]| && bs[i][k] == r;
  }

  function BlockRows(blockSize: int): nat { if blockSize <= 0 then DEFAULT_ROWS else blockSize }

  /** All rows of an opened file, in block order; None if some block cannot be read. */
  function ReadAll(f: Format, file: seq<Byte>, hs: seq<Header>): Option<seq<Entry>>
  {
    if hs == [] then Some([])
    else
      var b := ReadBlock(f, file, hs[|hs| - 1]);
      var front := ReadAll(f, file, hs[..|hs| - 1]);
      if b.None? || front.None? || !(|b.value.offsets| == |b.value.ts| + 1 && Monotonic(b.value.offsets)
                                     && b.value.offsets[|b.value.ts|] == |b.value.blob|) then None
      else Some(front.value + BinBlock.Rows(b.value))
  }

  lemma ReadAllStep(f: Format, file: seq<Byte>, hs: seq<Header>, b: Block, front: seq<Entry>)
    requires hs != [] && ReadBlock(f, file, hs[|hs| - 1]) == Some(b) && Valid(b)
    requires ReadAll(f, file, hs[..|hs| - 1]) == Some(front)
    ensures ReadAll(f, file, hs) == Some(front + BinBlock.Rows(b))
  {
    hide ReadBlock;
  }

  lemma {:induction false} ReadAllReads(f: Format, bs: seq<seq<Entry>>, n: nat)
    requires AllWritable(bs) && Fits(f, bs) && Lossless(f) && n <= |bs|
    ensures AllTimes(Headers(f, bs))
    ensures ReadAll(f, FileBytes(f, bs), ShiftAll(Headers(f, bs), Base(f, bs))[..n]) == Some(Flat(bs[..n]))
  {
    hide FileBytes, Headers, Fits, ReadBlock, Encode, BlockOf, Valid, Writable, AllTimes, Base;
    HeadersFit(f, bs);
    var hs := ShiftAll(Headers(f, bs), Base(f, bs));
    var file := FileBytes(f, bs);
    if n == 0 {
      assert hs[..0] == [] && bs[..0] == [];
    } else {
      ReadAllReads(f, bs, n - 1);
      ReadBlockReadsRows(f, bs, n - 1);
      assert hs[..n][..n - 1] == hs[..n - 1];
      assert bs[..n] == bs[..n - 1] + [bs[n - 1]];
      FlatSnoc(bs[..n - 1], bs[n - 1]);
      hide ReadAll, Flat;
      ReadAllStep(f, file, hs[..n], BlockOf(bs[n - 1]), Flat(bs[..n - 1]));
    }
  }

  /** Writing any rows with any block size and reading the file back gives the same rows. */
  lemma PartRoundTrip(f: Format, es: seq<Entry>, blockSize: int)
    requires AllWritable(Cut(es, BlockRows(blockSize))) && Fits(f, Cut(es, BlockRows(blockSize))) && Lossless(f)
    ensures var bs := Cut(es, BlockRows(blockSize));
            && AllTimes(Headers(f, bs))
            && var hs := Open(FileBytes(f, bs));
            hs.Some? && |hs.value| == |bs| && ReadAll(f, FileBytes(f, bs), hs.value) == Some(es)
  {
    var bs := Cut(es, BlockRows(blockSize));
    OpenReadsHeaders(f, bs);
    ReadAllReads(f, bs, |bs|);
    CutIsPartition(es, BlockRows(blockSize));
    hide FileBytes, Headers, Fits, ReadAll, Flat, Cut, Open;
    var hs := ShiftAll(Headers(f, bs), Base(f, bs));
    assert bs[..|bs|] == bs && hs[..|bs|] == hs;
  }

  // ---------- the writer and the reader ----------

  /** Compresses the blocks one after the other and builds the directory in front of them. */
  method WritePart(f: Format, es: seq<Entry>, blockSize: int) returns (file: seq<Byte>, headers: seq<Header>)
    requires AllWritable(Cut(es, BlockRows(blockSize))) && Fits(f, Cut(es, BlockRows(blockSize)))
    ensures var bs := Cut(es, BlockRows(blockSize));
            AllTimes(Headers(f, bs)) && headers == Headers(f, bs) && file == FileBytes(f, bs)
  {
    var bs := CutStream(es, blockSize);
    HeadersFit(f, bs);
    var payload;
    payload, headers := FlushBlocks(f, bs);
    hide Headers, Payload, Fits, AllWritable, Cut;
    var dirSize := DirectorySize(headers);
    var dir := WriteDirectory(headers, HEADER_SIZE + dirSize);
    file := MAGIC + [VERSION, 0, 0, 0] + LE(|headers|, 8) + dir + payload;
  }

  method FlushBlocks(f: Format, bs: seq<seq<Entry>>) returns (payload: seq<Byte>, headers: seq<Header>)
    requires AllWritable(bs)
    ensures payload == Payload(f, bs) && headers == Headers(f, bs)
  {
    payload, headers := [], [];
    var offset := 0;
    var i := 0;
    while i < |bs|
      invariant 0 <= i <= |bs| && offset == |payload|
      invariant payload == Payload(f, bs[..i]) && headers == Headers(f, bs[..i])
    {
      var b := bs[i];
      assert Writable(b) && bs[..i + 1][..i] == bs[..i];
      hide Encode, Writable;
      payload := payload + f.compress(Encode(b));
      headers := headers + [Header(offset, |payload| - offset, |b|, b[0].ts, b[|b| - 1].ts, f.bloomOf(b))];
      offset := |payload|;
      i := i + 1;
    }
    assert bs[..i] == bs;
  }

  lemma {:induction false} DirLenSnoc(hs: seq<Header>, h: Header)
    ensures DirLen(hs + [h]) == DirLen(hs) + 40 + |h.bloom|
  {
    if hs == [] {
      assert hs + [h] == [h];
    } else {
      assert (hs + [h])[1..] == hs[1..] + [h];
      DirLenSnoc(hs[1..], h);
    }
  }

  lemma {:induction false} DirBytesSnoc(hs: seq<Header>, h: Header, base: nat)
    requires AllTimes(hs) && IsInt64(h.minTs) && IsInt64(h.maxTs)
    ensures AllTimes(hs + [h])
    ensures DirBytes(hs + [h], base) == DirBytes(hs, base) + DirRow(h, base)
  {
    hide DirRow;
    if hs == [] {
      assert hs + [h] == [h];
    } else {
      assert (hs + [h])[1..] == hs[1..] + [h];
      DirBytesSnoc(hs[1..], h, base);
    }
  }

  method DirectorySize(hs: seq<Header>) returns (n: nat)
    ensures n == DirLen(hs)
  {
    n := 0;
    var i := 0;
    while i < |hs|
      invariant 0 <= i <= |hs| && n == DirLen(hs[..i])
    {
      assert hs[..i + 1] == hs[..i] + [hs[i]];
      DirLenSnoc(hs[..i], hs[i]);
      n := n + 40 + |hs[i].bloom|;
      i := i + 1;
    }
    assert hs[..i] == hs;
  }

  method WriteDirectory(hs: seq<Header>, base: nat) returns (dir: seq<Byte>)
    requires AllTimes(hs)
    ensures dir == DirBytes(hs, base)
  {
    hide DirRow;
    dir := [];
    var i := 0;
    while i < |hs|
      invariant 0 <= i <= |hs| && AllTimes(hs[..i]) && dir == DirBytes(hs[..i], base)
    {
      assert hs[..i + 1] == hs[..i] + [hs[i]];
      DirBytesSnoc(hs[..i], hs[i], base);
      dir := dir + DirRow(hs[i], base);
      i := i + 1;
    }
    assert hs[..i] == hs;
  }

  /** Checks the fixed header and walks the directory row by row. */
  method OpenPart(file: seq<Byte>) returns (r: Option<seq<Header>>)
    ensures r == Open(file)
  {
    hide ParseRow, FromLE;
    if |file| < HEADER_SIZE || file[..4] != MAGIC || file[4] != VERSION { return None; }
    var n := FromLE(file[8..16]);
    var pos := HEADER_SIZE;
    var hs: seq<Header> := [];
    PrependNothing(ParseDir(file[pos..], n));
    var i := 0;
    while i < n
      invariant 0 <= i <= n && HEADER_SIZE <= pos <= |file|
      invariant Open(file) == Prepend(hs, ParseDir(file[pos..], n - i))
    {
      var h := ParseRow(file[pos..]);
      if h.None? { return None; }
      ParsedRowFits(file[pos..]);
      PrependStep(hs, h.value, file[pos..], n - i);
      var len := 40 + |h.value.bloom|;
      assert file[pos..][len..] == file[pos + len..];
      pos := pos + len;
      hs := hs + [h.value];
      i := i + 1;
    }
    ParseDirNone(file[pos..]);
    assert hs + [] == hs;
    r := Some(hs);
  }

  function Prepend(hs: seq<Header>, rest: Option<seq<Header>>): Option<seq<Header>>
  {
    if rest.None? then None else Some(hs + rest.value)
  }

  lemma PrependNothing(rest: Option<seq<Header>>)
    ensures Prepend([], rest) == rest
  {
    if rest.Some? { assert [] + rest.value == rest.value; }
  }

  lemma PrependStep(hs: seq<Header>, h: Header, b: seq<Byte>, n: nat)
    requires n > 0 && ParseRow(b) == Some(h) && 40 + |h.bloom| <= |b|
    ensures Prepend(hs, ParseDir(b, n)) == Prepend(hs + [h], ParseDir(b[40 + |h.bloom|..], n - 1))
  {
    hide ParseRow;
    var rest := ParseDir(b[40 + |h.bloom|..], n - 1);
    if rest.Some? { assert hs + ([h] + rest.value) == hs + [h] + rest.value; }
  }

  lemma ParsedRowFits(b: seq<Byte>)
    requires ParseRow(b).Some?
    ensures 40 + |ParseRow(b).value.bloom| <= |b|
  {
    hide FromLE;
  }
}
