/** The bytes behind the cells of a segment: the step machine's view of a file against what the line scanner reads. */
module SegmentBytes {
  import opened Prelude
  import opened LineScan
  import opened LineCaps
  import opened S = SegmentLog

  /** How records are written as lines, and which lines the decoder rejects. */
  datatype Coding = Coding(text: Rec -> seq<Byte>, junk: seq<Byte> -> bool)

  /**
   Records are lines that decode. The first bytes of a record do not, and stay undecodable
   when a record, or the first bytes of one, is appended to them.
   */
  ghost predicate Sound(c: Coding)
  {
    && (forall r :: IsRecord(c.text(r)) && |c.text(r)| >= 2 && !c.junk(c.text(r)))
    && (forall r, n :: 0 < n < |c.text(r)| ==> c.junk(c.text(r)[..n]))
    && (forall x, r, n :: c.junk(x) && 0 <= n <= |c.text(r)| ==> c.junk(x + c.text(r)[..n]))
  }

  function Lens(c: Coding): Sizes { r => |c.text(r)| }

  // ---------- the bytes of a file ----------

  function Piece(c: Coding, cell: Cell): seq<Byte>
  {
    if cell.Torn? then c.text(cell.rec)[..TornLen(Lens(c), cell.rec, cell.bytes)] else c.text(cell.rec) + [NEWLINE]
  }

  function Render(c: Coding, cells: seq<Cell>): seq<Byte>
  {
    if cells == [] then [] else Render(c, cells[..|cells| - 1]) + Piece(c, cells[|cells| - 1])
  }

  function Texts(c: Coding, rs: seq<Rec>): (r: seq<seq<Byte>>)
    ensures |r| == |rs| && forall i :: 0 <= i < |rs| ==> r[i] == c.text(rs[i])
  {
    seq(|rs|, i requires 0 <= i < |rs| => c.text(rs[i]))
  }

  lemma Regroup(a: seq<Byte>, b: seq<Byte>, c: seq<Byte>)
    ensures a + b + c == a + (b + c)
  {}

  lemma {:induction false} RenderAppend(c: Coding, a: seq<Cell>, b: seq<Cell>)
    ensures Render(c, a + b) == Render(c, a) + Render(c, b)
  {
    if b == [] {
      assert a + b == a;
    } else {
      hide Piece;
      var n := |b| - 1;
      assert (a + b)[..|a + b| - 1] == a + b[..n];
      RenderAppend(c, a, b[..n]);
      Regroup(Render(c, a), Render(c, b[..n]), Piece(c, b[n]));
    }
  }

  lemma RenderOne(c: Coding, cell: Cell)
    ensures Render(c, [cell]) == Piece(c, cell)
  {
    assert [cell][..0] == [];
  }

  lemma {:induction false} RenderWritten(c: Coding, ragged: bool, rs: seq<Rec>)
    ensures Render(c, Written(ragged, rs)) == Encode(Texts(c, rs))
  {
    if rs != [] {
      var cells := Written(ragged, rs);
      assert cells == [cells[0]] + Written(false, rs[1..]);
      RenderAppend(c, [cells[0]], Written(false, rs[1..]));
      RenderOne(c, cells[0]);
      RenderWritten(c, false, rs[1..]);
      assert Texts(c, rs)[1..] == Texts(c, rs[1..]);
    }
  }

  // ---------- what a write appends ----------

  /** How many bytes of a batch a write puts down that completes `k` lines and `tear` bytes more. */
  function Landed(c: Coding, lines: seq<Rec>, k: nat, tear: nat): nat
    requires k <= |lines| && (tear > 0 ==> k < |lines|)
  {
    |Encode(Texts(c, lines[..k]))| + if tear > 0 then TornLen(Lens(c), lines[k], tear) else 0
  }

  lemma {:induction false} EncodeAppend(a: seq<seq<Byte>>, b: seq<seq<Byte>>)
    ensures Encode(a + b) == Encode(a) + Encode(b)
  {
    if a == [] {
      assert a + b == b;
    } else {
      assert (a + b)[1..] == a[1..] + b;
      EncodeAppend(a[1..], b);
    }
  }

  lemma EncodeSplit(c: Coding, lines: seq<Rec>, k: nat)
    requires k <= |lines|
    ensures Encode(Texts(c, lines)) == Encode(Texts(c, lines[..k])) + Encode(Texts(c, lines[k..]))
  {
    assert Texts(c, lines) == Texts(c, lines[..k]) + Texts(c, lines[k..]);
    EncodeAppend(Texts(c, lines[..k]), Texts(c, lines[k..]));
  }

  lemma TornOfBatch(c: Coding, lines: seq<Rec>, k: nat, tear: nat)
    requires k < |lines|
    ensures var n := TornLen(Lens(c), lines[k], tear);
            var rest := Encode(Texts(c, lines[k..]));
            n <= |rest| && rest[..n] == c.text(lines[k])[..n]
  {
    assert Texts(c, lines[k..])[0] == c.text(lines[k]);
  }

  lemma WholeLinesLand(c: Coding, f: File, lines: seq<Rec>, k: nat)
    requires k <= |lines|
    ensures Render(c, Land(f, lines, k, 0).cells) == Render(c, f.cells) + Encode(Texts(c, lines[..k]))
  {
    hide Render, Encode, Written;
    var cells := Written(f.ragged, lines[..k]);
    RenderWritten(c, f.ragged, lines[..k]);
    RenderAppend(c, f.cells, cells);
    assert f.cells + cells + [] == f.cells + cells;
  }

  lemma TornLineLands(c: Coding, f: File, lines: seq<Rec>, k: nat, tear: nat)
    requires k < |lines| && tear > 0
    ensures Render(c, Land(f, lines, k, tear).cells) ==
            Render(c, Land(f, lines, k, 0).cells) + c.text(lines[k])[..TornLen(Lens(c), lines[k], tear)]
  {
    hide Render, Encode, Written;
    var scrap := Torn(lines[k], tear);
    var cells := Land(f, lines, k, 0).cells;
    assert Land(f, lines, k, tear).cells == cells + [scrap];
    RenderAppend(c, cells, [scrap]);
    RenderOne(c, scrap);
  }

  /** Whole, partial or torn: a write appends the first bytes of the batch, and nothing else. */
  lemma LandAppends(c: Coding, f: File, lines: seq<Rec>, k: nat, tear: nat)
    requires k <= |lines| && (tear > 0 ==> k < |lines|)
    ensures var batch := Encode(Texts(c, lines));
            var m := Landed(c, lines, k, tear);
            && m <= |batch| && (k == |lines| ==> m == |batch|)
            && Render(c, Land(f, lines, k, tear).cells) == Render(c, f.cells) + batch[..m]
  {
    hide Render, Encode, Written, Land, Texts;
    WholeLinesLand(c, f, lines, k);
    EncodeSplit(c, lines, k);
    assert k == |lines| ==> lines[..k] == lines;
    if tear > 0 {
      TornLineLands(c, f, lines, k, tear);
      TornOfBatch(c, lines, k, tear);
      Regroup(Render(c, f.cells), Encode(Texts(c, lines[..k])), c.text(lines[k])[..TornLen(Lens(c), lines[k], tear)]);
    }
  }

  /** And every short write is one of those, unless it stops right before a newline. */
  lemma {:induction false} EveryShortWrite(c: Coding, lines: seq<Rec>, m: nat) returns (k: nat, tear: nat)
    requires var batch := Encode(Texts(c, lines)); m <= |batch| && (m < |batch| ==> batch[m] != NEWLINE)
    requires Sound(c)
    ensures k <= |lines| && (tear > 0 ==> k < |lines|) && Landed(c, lines, k, tear) == m
  {
    if m == 0 {
      k, tear := 0, 0;
    } else {
      var t := c.text(lines[0]);
      var rest := Encode(Texts(c, lines[1..]));
      assert Texts(c, lines)[1..] == Texts(c, lines[1..]);
      assert Encode(Texts(c, lines)) == t + [NEWLINE] + rest;
      if m < |t| {
        k, tear := 0, m;
      } else {
        assert m != |t| by { assert (t + [NEWLINE] + rest)[|t|] == NEWLINE; }
        var i := m - |t| - 1;
        assert i < |rest| ==> rest[i] == (t + [NEWLINE] + rest)[m];
        k, tear := EveryShortWrite(c, lines[1..], i);
        LandedStep(c, lines, k, tear);
        k := k + 1;
      }
    }
  }

  lemma LandedStep(c: Coding, lines: seq<Rec>, k: nat, tear: nat)
    requires lines != [] && k <= |lines| - 1 && (tear > 0 ==> k < |lines| - 1)
    ensures Landed(c, lines, k + 1, tear) == |c.text(lines[0])| + 1 + Landed(c, lines[1..], k, tear)
  {
    assert Texts(c, lines[..k + 1]) == [c.text(lines[0])] + Texts(c, lines[1..][..k]);
    EncodeAppend([c.text(lines[0])], Texts(c, lines[1..][..k]));
    assert [c.text(lines[0])][1..] == [];
  }

  // ---------- what a crash leaves ----------

  lemma StartIsPrefix(c: Coding, cell: Cell, bytes: nat)
    ensures Piece(c, Start(cell, bytes)) <= Piece(c, cell)
  {
    var n := TornLen(Lens(c), cell.rec, Start(cell, bytes).bytes);
    assert n <= |Piece(c, cell)| && Piece(c, cell)[..n] == c.text(cell.rec)[..n];
  }

  lemma RenderPrefix(c: Coding, cells: seq<Cell>, n: nat)
    requires n <= |cells|
    ensures Render(c, cells[..n]) <= Render(c, cells)
  {
    assert cells == cells[..n] + cells[n..];
    RenderAppend(c, cells[..n], cells[n..]);
  }

  lemma RenderStart(c: Coding, cells: seq<Cell>, cell: Cell, bytes: nat)
    ensures Render(c, cells) <= Render(c, cells + [Start(cell, bytes)]) <= Render(c, cells + [cell])
  {
    RenderAppend(c, cells, [Start(cell, bytes)]);
    RenderAppend(c, cells, [cell]);
    RenderOne(c, Start(cell, bytes));
    RenderOne(c, cell);
    StartIsPrefix(c, cell, bytes);
  }

  /** After a crash the file is cut to a prefix that still has every synced byte. */
  lemma TruncateCuts(c: Coding, f: File, cut: Cut)
    requires f.synced <= cut.len <= |f.cells|
    ensures Render(c, f.cells[..f.synced]) <= Render(c, Truncate(f, cut).cells) <= Render(c, f.cells)
  {
    hide Render, Start;
    var n := cut.len;
    assert f.cells[..n][..f.synced] == f.cells[..f.synced];
    RenderPrefix(c, f.cells[..n], f.synced);
    RenderPrefix(c, f.cells, n);
    if n == |f.cells| {
      assert f.cells[..n] == f.cells;
    } else if cut.tear > 0 {
      RenderStart(c, f.cells[..n], f.cells[n], cut.tear);
      RenderPrefix(c, f.cells, n + 1);
      assert f.cells[..n + 1] == f.cells[..n] + [f.cells[n]];
    }
  }

  // ---------- what the scanner reads ----------

  /** The lines a newline ends, and the bytes behind the last newline. */
  function Physical(c: Coding, cells: seq<Cell>): (seq<seq<Byte>>, seq<Byte>)
  {
    if cells == [] then ([], [])
    else
      var (ls, tail) := Physical(c, cells[..|cells| - 1]);
      var last := cells[|cells| - 1];
      if last.Torn? then (ls, tail + Piece(c, last)) else (ls + [tail + c.text(last.rec)], [])
  }

  /** The lines of a file, the unterminated last one included. */
  function FileLines(c: Coding, cells: seq<Cell>): seq<seq<Byte>>
  {
    var (ls, tail) := Physical(c, cells);
    ls + if tail == [] then [] else [tail]
  }

  lemma EncodeLast(ls: seq<seq<Byte>>, tail: seq<Byte>, t: seq<Byte>)
    ensures Encode(ls) + tail + (t + [NEWLINE]) == Encode(ls + [tail + t])
  {
    EncodeAppend(ls, [tail + t]);
    assert [tail + t][1..] == [];
    assert Encode([tail + t]) == tail + t + [NEWLINE];
    Regroup(tail, t, [NEWLINE]);
    Regroup(Encode(ls), tail, t + [NEWLINE]);
  }

  lemma {:induction false} PhysicalBytes(c: Coding, cells: seq<Cell>)
    requires Sound(c)
    ensures var (ls, tail) := Physical(c, cells);
            && Render(c, cells) == Encode(ls) + tail
            && NEWLINE !in tail && (forall i :: 0 <= i < |ls| ==> IsRecord(ls[i]))
            && |tail| == Tail(Lens(c), cells)
  {
    if cells != [] {
      var n := |cells| - 1;
      PhysicalBytes(c, cells[..n]);
      var (ls, tail) := Physical(c, cells[..n]);
      var t := c.text(cells[n].rec);
      assert IsRecord(t);
      if cells[n].Torn? {
        Regroup(Encode(ls), tail, Piece(c, cells[n]));
      } else {
        EncodeLast(ls, tail, t);
      }
    }
  }

  lemma EndsInOne(l: seq<Byte>)
    ensures EndsInNewline(l + [NEWLINE])
  {}

  lemma {:induction false} SplitLines(ls: seq<seq<Byte>>, tail: seq<Byte>)
    requires NEWLINE !in tail && forall i :: 0 <= i < |ls| ==> IsRecord(ls[i])
    ensures Split(Encode(ls) + tail) == ls + if tail == [] then [] else [tail]
  {
    if ls == [] {
      assert Encode(ls) + tail == tail;
    } else {
      hide Split, EndsInNewline;
      var first := ls[0] + [NEWLINE];
      assert IsRecord(ls[0]);
      SplitRecord(ls[0]);
      assert EndsInNewline(first) by { EndsInOne(ls[0]); }
      SplitAppend(first, Encode(ls[1..]) + tail);
      Regroup(first, Encode(ls[1..]), tail);
      SplitLines(ls[1..], tail);
    }
  }

  lemma {:induction false} NoneEmpty(ls: seq<seq<Byte>>)
    requires forall i :: 0 <= i < |ls| ==> ls[i] != []
    ensures NonEmpty(ls) == ls
  {
    if ls != [] { NoneEmpty(ls[1..]); }
  }

  lemma SplitIsFileLines(c: Coding, cells: seq<Cell>)
    requires Sound(c)
    ensures Split(Render(c, cells)) == FileLines(c, cells) == Lines(Render(c, cells))
  {
    PhysicalBytes(c, cells);
    var (ls, tail) := Physical(c, cells);
    SplitLines(ls, tail);
    NoneEmpty(FileLines(c, cells));
  }

  ghost predicate SomeLong(ls: seq<seq<Byte>>) { exists l :: l in ls && |l| >= MAX_LINE }

  lemma SomeLongAppend(a: seq<seq<Byte>>, l: seq<Byte>)
    ensures SomeLong(a + [l]) <==> SomeLong(a) || |l| >= MAX_LINE
  {
    if SomeLong(a) {
      var x :| x in a && |x| >= MAX_LINE;
      assert x in a + [l];
    }
    assert l in a + [l];
  }

  lemma {:induction false} LongLines(c: Coding, cells: seq<Cell>)
    requires Sound(c)
    ensures Overlong(Lens(c), cells) <==> SomeLong(Physical(c, cells).0) || |Physical(c, cells).1| >= MAX_LINE
  {
    if cells != [] {
      var n := |cells| - 1;
      LongLines(c, cells[..n]);
      PhysicalBytes(c, cells[..n]);
      var (ls, tail) := Physical(c, cells[..n]);
      SomeLongAppend(ls, tail + c.text(cells[n].rec));
    }
  }

  /** The scanner gives up on the bytes of a file if and only if the cells add up to a line that does not fit. */
  lemma ScanFailsIffOverlong(c: Coding, cells: seq<Cell>)
    requires Sound(c)
    ensures Scan(Render(c, cells)) == if Overlong(Lens(c), cells) then None else Some(FileLines(c, cells))
  {
    hide Render, Physical, Overlong, Split, Lines;
    SplitIsFileLines(c, cells);
    LongLines(c, cells);
    var (ls, tail) := Physical(c, cells);
    SomeLongAppend(ls, tail);
  }

  // ---------- which of them decode ----------

  /** A line is glued to what is before it exactly when that is torn. */
  ghost predicate TidyAt(cells: seq<Cell>, i: nat)
    requires i < |cells|
  {
    if cells[i].Torn? then cells[i].bytes > 0 else (cells[i].Glued? <==> i > 0 && cells[i - 1].Torn?)
  }

  ghost predicate Tidy(cells: seq<Cell>) { forall i: nat :: i < |cells| ==> TidyAt(cells, i) }

  ghost predicate TidyFile(f: File)
  {
    Tidy(f.cells) && (f.ragged <==> f.cells != [] && f.cells[|f.cells| - 1].Torn?)
  }

  /** The lines that decode. */
  function Readable(c: Coding, ls: seq<seq<Byte>>): seq<seq<Byte>>
  {
    if ls == [] then []
    else Readable(c, ls[..|ls| - 1]) + (if c.junk(ls[|ls| - 1]) then [] else [ls[|ls| - 1]])
  }

  lemma ReadableNext(c: Coding, ls: seq<seq<Byte>>, l: seq<Byte>)
    ensures Readable(c, ls + [l]) == Readable(c, ls) + if c.junk(l) then [] else [l]
  {
    assert (ls + [l])[..|ls|] == ls;
  }

  lemma TornIsJunk(c: Coding, tail: seq<Byte>, cell: Cell)
    requires Sound(c) && cell.Torn? && cell.bytes > 0 && (tail == [] || c.junk(tail))
    ensures c.junk(tail + Piece(c, cell))
  {
    var n := TornLen(Lens(c), cell.rec, cell.bytes);
    assert 0 < n < |c.text(cell.rec)|;
    assert [] + Piece(c, cell) == Piece(c, cell);
  }

  lemma GluedIsJunk(c: Coding, tail: seq<Byte>, r: Rec)
    requires Sound(c) && c.junk(tail)
    ensures c.junk(tail + c.text(r))
  {
    var t := c.text(r);
    assert t[..|t|] == t && c.junk(tail + t[..|t|]);
  }

  ghost predicate Reads(c: Coding, cells: seq<Cell>, ls: seq<seq<Byte>>, tail: seq<Byte>)
  {
    && Readable(c, ls) == Texts(c, Recs(cells))
    && (if cells != [] && cells[|cells| - 1].Torn? then c.junk(tail) else tail == [])
  }

  lemma NextReads(c: Coding, cells: seq<Cell>, last: Cell, ls: seq<seq<Byte>>, tail: seq<Byte>)
    requires Sound(c) && Tidy(cells + [last]) && Reads(c, cells, ls, tail)
    ensures if last.Torn? then Reads(c, cells + [last], ls, tail + Piece(c, last))
            else Reads(c, cells + [last], ls + [tail + c.text(last.rec)], [])
  {
    var all := cells + [last];
    assert all[..|cells|] == cells && all[|cells|] == last;
    assert TidyAt(all, |cells|) && (cells != [] ==> all[|cells| - 1] == cells[|cells| - 1]);
    if last.Torn? {
      TornIsJunk(c, tail, last);
    } else {
      ReadableNext(c, ls, tail + c.text(last.rec));
      if last.Glued? {
        GluedIsJunk(c, tail, last.rec);
      } else {
        assert tail == [];
        assert [] + c.text(last.rec) == c.text(last.rec) && !c.junk(c.text(last.rec));
      }
    }
  }

  lemma {:induction false} PhysicalReads(c: Coding, cells: seq<Cell>)
    requires Sound(c) && Tidy(cells)
    ensures Reads(c, cells, Physical(c, cells).0, Physical(c, cells).1)
  {
    if cells != [] {
      var n := |cells| - 1;
      forall i: nat | i < n ensures TidyAt(cells[..n], i) { assert TidyAt(cells, i); }
      PhysicalReads(c, cells[..n]);
      assert cells == cells[..n] + [cells[n]];
      hide Reads, Sound, Tidy;
      NextReads(c, cells[..n], cells[n], Physical(c, cells[..n]).0, Physical(c, cells[..n]).1);
    }
  }

  lemma ReadableFile(c: Coding, cells: seq<Cell>)
    requires Sound(c) && Tidy(cells)
    ensures Readable(c, FileLines(c, cells)) == Texts(c, Recs(cells))
  {
    hide Physical, Sound, Tidy;
    PhysicalReads(c, cells);
    var (ls, tail) := Physical(c, cells);
    if tail == [] { assert ls + [] == ls; } else { ReadableNext(c, ls, tail); }
  }

  lemma EncodeTail(ls: seq<seq<Byte>>, tail: seq<Byte>)
    requires NEWLINE !in tail
    ensures EndsInNewline(Encode(ls) + tail) <==> tail == []
  {
    EncodeEnds(ls);
    assert tail == [] ==> Encode(ls) + tail == Encode(ls);
  }

  lemma {:induction false} EncodeEnds(ls: seq<seq<Byte>>)
    ensures EndsInNewline(Encode(ls))
  {
    if ls != [] { EncodeEnds(ls[1..]); }
  }

  lemma EmptyIsNotJunk(c: Coding)
    requires Sound(c)
    ensures !c.junk([])
  {
    var t := c.text(0);
    assert [] + t[..|t|] == t;
  }

  lemma RaggedBytes(c: Coding, f: File)
    requires Sound(c) && TidyFile(f)
    ensures EndsInNewline(Render(c, f.cells)) <==> !f.ragged
  {
    PhysicalReads(c, f.cells);
    PhysicalBytes(c, f.cells);
    var (ls, tail) := Physical(c, f.cells);
    EncodeTail(ls, tail);
    hide Render, Physical, Recs, Readable, EndsInNewline;
    EmptyIsNotJunk(c);
  }

  /** What recovery decodes from the bytes of a segment are the records of its cells, in order. */
  lemma RecoveryReadsCells(c: Coding, f: File)
    requires Sound(c) && TidyFile(f)
    ensures Readable(c, Lines(Render(c, f.cells))) == Texts(c, Recs(f.cells))
    ensures EndsInNewline(Render(c, f.cells)) <==> !f.ragged
  {
    hide Lines, Render, Readable, Texts, Recs;
    SplitIsFileLines(c, f.cells);
    ReadableFile(c, f.cells);
    RaggedBytes(c, f);
  }
}
