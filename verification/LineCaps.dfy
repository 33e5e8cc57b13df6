/** Lines that do not fit the scanner's buffer: when a log can be opened again at all. */
module LineCaps {
  // `size(r)` is the length of record `r` as a line, without its newline. A torn line has at
  // least one byte of the record less than all of it, and what is glued to it makes the same
  // line longer, so lengths add up until the next newline.

  import opened Prelude
  import opened SegmentLog
  import LineScan

  type Sizes = Rec -> nat

  function TornLen(size: Sizes, r: Rec, bytes: nat): (n: nat)
    ensures n <= size(r)
  {
    if bytes < size(r) then bytes else if size(r) == 0 then 0 else size(r) - 1
  }

  /** The bytes behind the last newline. */
  function Tail(size: Sizes, cells: seq<Cell>): nat
  {
    if cells == [] then 0
    else
      var last := cells[|cells| - 1];
      if last.Torn? then Tail(size, cells[..|cells| - 1]) + TornLen(size, last.rec, last.bytes) else 0
  }

  /** The length of the line that the last cell belongs to, up to and including that cell. */
  function LastLine(size: Sizes, cells: seq<Cell>): nat
    requires cells != []
  {
    var last := cells[|cells| - 1];
    Tail(size, cells[..|cells| - 1]) + if last.Torn? then TornLen(size, last.rec, last.bytes) else size(last.rec)
  }

  /** Some line of the file is as long as the scanner's buffer. */
  predicate Overlong(size: Sizes, cells: seq<Cell>)
  {
    cells != [] && (Overlong(size, cells[..|cells| - 1]) || LastLine(size, cells) >= LineScan.MAX_LINE)
  }

  predicate Opens(size: Sizes, s: Log)
  {
    forall q :: q in s.segs ==> !Overlong(size, s.segs[q].cells)
  }

  /** What opening the log reads: one line that does not fit makes all of it fail. */
  ghost function Recover(size: Sizes, s: Log): Option<seq<Rec>>
  {
    if Opens(size, s) then Some(Recovered(s)) else None
  }

  // ---------- what a crash does to the lengths ----------

  lemma {:induction false} PrefixFits(size: Sizes, cells: seq<Cell>, n: nat)
    requires n <= |cells| && !Overlong(size, cells)
    ensures !Overlong(size, cells[..n])
  {
    if n < |cells| {
      PrefixFits(size, cells[..|cells| - 1], n);
      assert cells[..|cells| - 1][..n] == cells[..n];
    } else {
      assert cells[..n] == cells;
    }
  }

  lemma StartFits(size: Sizes, cells: seq<Cell>, cell: Cell, bytes: nat)
    requires !Overlong(size, cells + [cell])
    ensures !Overlong(size, cells + [Start(cell, bytes)])
  {
    assert (cells + [cell])[..|cells|] == cells && (cells + [Start(cell, bytes)])[..|cells|] == cells;
  }

  lemma TruncateFits(size: Sizes, f: File, c: Cut)
    requires f.synced <= c.len <= |f.cells| && !Overlong(size, f.cells)
    ensures !Overlong(size, Truncate(f, c).cells)
  {
    PrefixFits(size, f.cells, c.len);
    if c.len < |f.cells| {
      PrefixFits(size, f.cells, c.len + 1);
      assert f.cells[..c.len + 1] == f.cells[..c.len] + [f.cells[c.len]];
      StartFits(size, f.cells[..c.len], f.cells[c.len], c.tear);
    }
  }

  /** The crash that leaves everything that was written. */
  function Uncut(s: Log): map<nat, Cut> { map q | q in s.segs :: Cut(|s.segs[q].cells|, 0) }

  /** A log opens again after every crash if and only if no line in it is too long before the crash. */
  lemma OpensAfterEveryCrash(size: Sizes, s: Log)
    requires Shape(s)
    ensures Opens(size, s) <==> forall cuts :: Survives(s, cuts) ==> Opens(size, Reopen(s, cuts))
  {
    if Opens(size, s) {
      forall cuts | Survives(s, cuts) ensures Opens(size, Reopen(s, cuts)) {
        forall q | q in s.segs ensures !Overlong(size, Truncate(s.segs[q], cuts[q]).cells) {
          TruncateFits(size, s.segs[q], cuts[q]);
        }
      }
    } else {
      var q :| q in s.segs && Overlong(size, s.segs[q].cells);
      assert Survives(s, Uncut(s)) && Overlong(size, Reopen(s, Uncut(s)).segs[q].cells);
    }
  }

  /** Without torn lines, every record is a line of its own. */
  lemma {:induction false} WholeLinesFit(size: Sizes, cells: seq<Cell>)
    requires forall i :: 0 <= i < |cells| ==> cells[i].Line?
    ensures Tail(size, cells) == 0
    ensures Overlong(size, cells) <==> exists r :: Line(r) in cells && size(r) >= LineScan.MAX_LINE
  {
    if cells != [] {
      var n := |cells| - 1;
      var r := cells[n].rec;
      WholeLinesFit(size, cells[..n]);
      assert cells == cells[..n] + [Line(r)];
      assert Overlong(size, cells) <==> Overlong(size, cells[..n]) || size(r) >= LineScan.MAX_LINE;
    }
  }

  /** In a log without torn lines: it opens if and only if every record in it is shorter than the buffer. */
  lemma WholeLogOpens(size: Sizes, s: Log)
    requires forall q :: q in s.segs ==> forall i :: 0 <= i < |s.segs[q].cells| ==> s.segs[q].cells[i].Line?
    ensures Opens(size, s) <==> forall r :: InWal(s, r) ==> size(r) < LineScan.MAX_LINE
  {
    forall q | q in s.segs { WholeLinesFit(size, s.segs[q].cells); }
    if !Opens(size, s) {
      var q :| q in s.segs && Overlong(size, s.segs[q].cells);
      var r :| Line(r) in s.segs[q].cells && size(r) >= LineScan.MAX_LINE;
      assert InWal(s, r);
    }
  }
}
