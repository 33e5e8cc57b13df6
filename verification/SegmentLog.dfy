/** The segmented write-ahead log. */
module SegmentLog {
  // The segmented write-ahead log with leader/follower group commit.
  //
  // A record is the occurrence number of one entry handed to the log, so two equal log
  // lines stay two records. A file is a sequence of cells, each appended by a write: a whole
  // line, the first bytes of a line that was torn, or a line glued to a torn one in front of
  // it. `ragged` says that the last cell is torn, which is what a failed or interrupted write
  // leaves behind. A torn line and what is glued to it can no longer be decoded (module
  // SegmentBytes proves this of the bytes).
  //
  // Locks: `mu` is held for one step only; `ioMu` is held exactly while `io` is set, and by
  // `Seal`, `Discard` and `Reopen`, which are single steps.

  import opened Prelude

  type Rec = nat

  datatype Cell = Line(rec: Rec) | Torn(rec: Rec, bytes: nat) | Glued(rec: Rec)

  datatype File = File(cells: seq<Cell>, synced: nat, ragged: bool)

  const EMPTY_FILE := File([], 0, false)

  /** A group-commit batch: what it carries, and its result once the leader is done. */
  datatype Batch = Batch(lines: seq<Rec>, res: Option<bool>)

  /** A waiter inside commitWait that holds ioMu and has taken `pending` over. */
  datatype Leader = Leader(waiter: nat, batch: Option<nat>, buf: seq<Rec>)

  datatype Log = Log(
    segs: map<nat, File>,
    activeSeq: nat,
    open: bool, // the active file handle still works
    pending: seq<Rec>,
    cur: Option<nat>,
    batches: seq<Batch>,
    io: Option<Leader>)

  /** What the operating system did with one write followed by fsync. */
  datatype Io = Synced | SyncFailed | WriteFailed(k: nat, tear: nat)

  /** How retiring the active segment went. */
  datatype Rotation = Rotated | CloseFailed | OpenFailed(reopened: bool) | DirSyncFailed

  // ---------- files ----------

  function AsLines(rs: seq<Rec>): (r: seq<Cell>)
    ensures |r| == |rs|
    ensures forall i :: 0 <= i < |rs| ==> r[i] == Line(rs[i])
  {
    seq(|rs|, i requires 0 <= i < |rs| => Line(rs[i]))
  }

  /** The records a scan of the cells can still decode, in order. */
  function Recs(cells: seq<Cell>): seq<Rec>
  {
    if cells == [] then []
    else
      var last := cells[|cells| - 1];
      Recs(cells[..|cells| - 1]) + if last.Line? then [last.rec] else []
  }

  /** The cells that writing whole lines adds: behind a torn line the first one is glued to it. */
  function Written(ragged: bool, lines: seq<Rec>): (r: seq<Cell>)
    ensures |r| == |lines| && forall i :: 0 <= i < |r| ==> r[i].rec == lines[i] && r[i] == if ragged && i == 0 then Glued(lines[0]) else Line(lines[i])
  {
    if ragged && lines != [] then [Glued(lines[0])] + AsLines(lines[1..]) else AsLines(lines)
  }

  /** The first `k` lines reach the file, and `tear` bytes of the next one. */
  function Land(f: File, lines: seq<Rec>, k: nat, tear: nat): File
    requires k <= |lines| && (tear > 0 ==> k < |lines|)
  {
    var scrap := if tear > 0 then [Torn(lines[k], tear)] else [];
    File(f.cells + Written(f.ragged, lines[..k]) + scrap, f.synced, tear > 0 || (f.ragged && k == 0))
  }

  function Fsync(f: File): File { f.(synced := |f.cells|) }

  /** The segments and the success flag after writing and syncing `lines`. */
  function WriteActive(s: Log, lines: seq<Rec>, r: Io): (map<nat, File>, bool)
    requires s.activeSeq in s.segs
  {
    if !s.open then (s.segs, false)
    else
      var f := s.segs[s.activeSeq];
      match r
      case Synced => (s.segs[s.activeSeq := Fsync(Land(f, lines, |lines|, 0))], true)
      case SyncFailed => (s.segs[s.activeSeq := Land(f, lines, |lines|, 0)], false)
      case WriteFailed(k, tear) =>
        (s.segs[s.activeSeq := Land(f, lines, Min(k, |lines|), if k < |lines| then tear else 0)], false)
  }

  // ---------- steps ----------

  function Enqueue(s: Log, buf: seq<Rec>): Log
    requires s.cur.Some? ==> s.cur.value < |s.batches|
  {
    var t := if s.cur.Some? then s
             else s.(cur := Some(|s.batches|), batches := s.batches + [Batch([], None)]);
    var c := t.cur.value;
    t.(pending := t.pending + buf,
       batches := t.batches[c := t.batches[c].(lines := t.batches[c].lines + buf)])
  }

  function TakePending(s: Log, waiter: nat): Log
  {
    s.(io := Some(Leader(waiter, s.cur, s.pending)), pending := [], cur := None)
  }

  ghost predicate LeaderReady(s: Log)
  {
    && s.activeSeq in s.segs
    && s.io.Some?
    && s.io.value.waiter < |s.batches|
    && (s.io.value.batch.Some? ==> s.io.value.batch.value < |s.batches|)
  }

  function FinishFlush(s: Log, r: Io): Log
    requires LeaderReady(s)
  {
    var l := s.io.value;
    if l.batch.None? then s.(io := None)
    else
      var (segs, ok) := WriteActive(s, l.buf, r);
      var b := l.batch.value;
      s.(segs := segs, io := None, batches := s.batches[b := s.batches[b].(res := Some(ok))])
  }

  /** Whether the leader's commitWait returns nil. */
  predicate LeaderReturnsNil(s: Log, r: Io)
    requires LeaderReady(s)
  {
    && (s.io.value.batch.None? || WriteActive(s, s.io.value.buf, r).1)
    && FinishFlush(s, r).batches[s.io.value.waiter].res != Some(false)
  }

  ghost predicate SealReady(s: Log)
  {
    && s.activeSeq in s.segs
    && s.io.None?
    && (s.cur.Some? ==> s.cur.value < |s.batches|)
  }

  function WithSegment(segs: map<nat, File>, q: nat): map<nat, File>
  {
    if q in segs then segs else segs[q := EMPTY_FILE]
  }

  function Rotate(s: Log, rot: Rotation): (Log, Option<nat>)
  {
    if !s.open then (s, None)
    else
      match rot
      case CloseFailed => (s.(open := false), None)
      case OpenFailed(reopened) => (s.(open := reopened), None)
      case DirSyncFailed => (s.(open := false, segs := WithSegment(s.segs, s.activeSeq + 1)), None)
      case Rotated =>
        (s.(segs := WithSegment(s.segs, s.activeSeq + 1), activeSeq := s.activeSeq + 1),
         Some(s.activeSeq))
  }

  /** Seal first flushes what is pending to the segment it is about to retire. */
  function SealPending(s: Log, r: Io): (Log, bool)
    requires SealReady(s)
  {
    if s.cur.None? then (s, true)
    else
      var (segs, ok) := WriteActive(s, s.pending, r);
      var b := s.cur.value;
      (s.(segs := segs, pending := [], cur := None,
          batches := s.batches[b := s.batches[b].(res := Some(ok))]), ok)
  }

  function Seal(s: Log, r: Io, rot: Rotation): (Log, Option<nat>)
    requires SealReady(s)
  {
    var (t, ok) := SealPending(s, r);
    if ok then Rotate(t, rot) else (t, None)
  }

  ghost predicate Removable(s: Log, upto: nat, gone: set<nat>)
  {
    forall q :: q in gone ==> q in s.segs && q <= upto && q != s.activeSeq
  }

  function Discard(s: Log, gone: set<nat>): Log { s.(segs := s.segs - gone) }

  /** What a crash leaves of each file: a length not below the synced one, and some bytes of the next cell. */
  datatype Cut = Cut(len: nat, tear: nat)

  function Truncate(f: File, c: Cut): File
    requires f.synced <= c.len <= |f.cells|
  {
    if c.len == |f.cells| then Fsync(f)
    else if c.tear > 0 then File(f.cells[..c.len] + [Start(f.cells[c.len], c.tear)], c.len + 1, true)
    else File(f.cells[..c.len], c.len, c.len > 0 && f.cells[c.len - 1].Torn?)
  }

  /** The first bytes of a cell. */
  function Start(cell: Cell, bytes: nat): Cell
  {
    Torn(cell.rec, if cell.Torn? && cell.bytes < bytes then cell.bytes else bytes)
  }

  ghost predicate Survives(s: Log, cuts: map<nat, Cut>)
  {
    && cuts.Keys == s.segs.Keys
    && forall q :: q in s.segs ==> s.segs[q].synced <= cuts[q].len <= |s.segs[q].cells|
  }

  /** Crash and reopen: memory is gone, the highest segment becomes the active one. */
  ghost function Reopen(s: Log, cuts: map<nat, Cut>): Log
    requires Survives(s, cuts)
  {
    var segs := map q | q in s.segs :: Truncate(s.segs[q], cuts[q]);
    var seq' := if s.activeSeq + 1 in s.segs then s.activeSeq + 1 else s.activeSeq;
    Log(segs, seq', true, [], None, [], None)
  }

  // ---------- what holds between any two steps ----------

  predicate Unresolved(s: Log, b: nat) { b < |s.batches| && s.batches[b].res.None? }

  ghost predicate Shape(s: Log)
  {
    && s.activeSeq in s.segs
    && (forall q :: q in s.segs ==> q <= s.activeSeq + 1 && s.segs[q].synced <= |s.segs[q].cells|)
    && (s.activeSeq + 1 in s.segs ==> !s.open && s.segs[s.activeSeq + 1] == EMPTY_FILE)
    && (s.cur.None? ==> s.pending == [])
    && (s.cur.Some? ==>
          && s.cur.value == |s.batches| - 1
          && Unresolved(s, s.cur.value)
          && s.batches[s.cur.value].lines == s.pending)
    && (s.io.Some? ==>
          && s.io.value.batch == Some(s.io.value.waiter)
          && s.cur != s.io.value.batch
          && Unresolved(s, s.io.value.waiter)
          && s.batches[s.io.value.waiter].lines == s.io.value.buf)
    // an unresolved commit is the open batch or the one the leader is writing
    && (forall b: nat :: Unresolved(s, b) ==>
          s.cur == Some(b) || (s.io.Some? && s.io.value.batch == Some(b)))
  }

  const FRESH := Log(map[1 := EMPTY_FILE], 1, true, [], None, [], None)

  lemma EnqueueKeepsShape(s: Log, buf: seq<Rec>)
    requires Shape(s)
    ensures Shape(Enqueue(s, buf))
  {
    var t := Enqueue(s, buf);
    forall b: nat | Unresolved(t, b)
      ensures t.cur == Some(b) || (t.io.Some? && t.io.value.batch == Some(b))
    {
      if b < |s.batches| && t.cur != Some(b) { assert Unresolved(s, b); }
    }
  }

  /** The comment in commitWait: with ioMu free, an unresolved commit is the open batch. */
  lemma TakePendingKeepsShape(s: Log, c: nat)
    requires Shape(s) && s.io.None? && Unresolved(s, c)
    ensures s.cur == Some(c)
    ensures Shape(TakePending(s, c))
  {
    var t := TakePending(s, c);
    forall b: nat | Unresolved(t, b)
      ensures t.cur == Some(b) || (t.io.Some? && t.io.value.batch == Some(b))
    {
      assert Unresolved(s, b);
    }
  }

  lemma WriteActiveKeeps(s: Log, lines: seq<Rec>, r: Io)
    requires Shape(s)
    ensures var segs := WriteActive(s, lines, r).0;
            && segs.Keys == s.segs.Keys
            && (forall q :: q in segs && q != s.activeSeq ==> segs[q] == s.segs[q])
            && (forall q :: q in segs ==> segs[q].synced <= |segs[q].cells|)
  {
  }

  lemma FinishFlushKeepsShape(s: Log, r: Io)
    requires Shape(s) && s.io.Some?
    ensures Shape(FinishFlush(s, r))
  {
    WriteActiveKeeps(s, s.io.value.buf, r);
    var t := FinishFlush(s, r);
    forall b: nat | Unresolved(t, b)
      ensures t.cur == Some(b) || (t.io.Some? && t.io.value.batch == Some(b))
    {
      assert Unresolved(s, b);
    }
  }

  lemma SealPendingKeepsShape(s: Log, r: Io)
    requires Shape(s) && s.io.None?
    ensures Shape(SealPending(s, r).0)
    ensures SealPending(s, r).0.cur.None?
  {
    WriteActiveKeeps(s, s.pending, r);
    var t := SealPending(s, r).0;
    forall b: nat | b < |t.batches| ensures t.batches[b].res.Some? {
      assert b < |s.batches| && (Unresolved(s, b) ==> s.cur == Some(b));
    }
  }

  lemma RotateKeepsShape(s: Log, rot: Rotation)
    requires Shape(s) && s.io.None? && s.cur.None?
    ensures var (t, sealed) := Rotate(s, rot);
            Shape(t) && (sealed.Some? ==> t.cur.None? && t.activeSeq == sealed.value + 1)
  {
    var t := Rotate(s, rot).0;
    assert forall b: nat :: Unresolved(t, b) ==> Unresolved(s, b);
  }

  lemma SealKeepsShape(s: Log, r: Io, rot: Rotation)
    requires Shape(s) && s.io.None?
    ensures var (t, sealed) := Seal(s, r, rot);
            Shape(t) && (sealed.Some? ==> t.cur.None? && t.activeSeq == sealed.value + 1)
  {
    SealPendingKeepsShape(s, r);
    RotateKeepsShape(SealPending(s, r).0, rot);
  }

  lemma ReopenKeepsShape(s: Log, cuts: map<nat, Cut>)
    requires Shape(s) && Survives(s, cuts)
    ensures Shape(Reopen(s, cuts))
    ensures forall q :: q in s.segs ==> q <= Reopen(s, cuts).activeSeq
  {
  }

  // ---------- what is on disk ----------

  /** Some segment still holds record `r` as a decodable line. */
  ghost predicate InWal(s: Log, r: Rec)
  {
    exists q :: q in s.segs && Line(r) in s.segs[q].cells
  }

  /** ... and that line was fsynced, so no crash can take it away. */
  ghost predicate Durable(s: Log, r: Rec)
  {
    exists q :: q in s.segs && s.segs[q].synced <= |s.segs[q].cells|
                && Line(r) in s.segs[q].cells[..s.segs[q].synced]
  }

  /** Replaying segments 0 .. n-1 in ascending order. */
  ghost function Replay(segs: map<nat, File>, n: nat): seq<Rec>
  {
    if n == 0 then []
    else Replay(segs, n - 1) + if n - 1 in segs then Recs(segs[n - 1].cells) else []
  }

  /** Everything forEachLine yields. */
  ghost function Recovered(s: Log): seq<Rec> { Replay(s.segs, s.activeSeq + 2) }

  lemma {:induction false} RecsAppend(a: seq<Cell>, b: seq<Cell>)
    ensures Recs(a + b) == Recs(a) + Recs(b)
  {
    if b == [] {
      assert a + b == a;
    } else {
      assert (a + b)[..|a + b| - 1] == a + b[..|b| - 1];
      RecsAppend(a, b[..|b| - 1]);
    }
  }

  lemma {:induction false} RecsOfLines(rs: seq<Rec>)
    ensures Recs(AsLines(rs)) == rs
  {
    if rs != [] {
      assert AsLines(rs)[..|rs| - 1] == AsLines(rs[..|rs| - 1]);
      RecsOfLines(rs[..|rs| - 1]);
      assert rs == rs[..|rs| - 1] + [rs[|rs| - 1]];
    }
  }

  lemma {:induction false} RecsMember(cells: seq<Cell>, r: Rec)
    ensures r in Recs(cells) <==> Line(r) in cells
  {
    if cells != [] {
      RecsMember(cells[..|cells| - 1], r);
      assert cells == cells[..|cells| - 1] + [cells[|cells| - 1]];
    }
  }

  lemma {:induction false} ReplayMember(segs: map<nat, File>, n: nat, r: Rec)
    ensures r in Replay(segs, n) <==> exists q :: q in segs && q < n && Line(r) in segs[q].cells
  {
    if n > 0 {
      ReplayMember(segs, n - 1, r);
      if n - 1 in segs { RecsMember(segs[n - 1].cells, r); }
    }
  }

  lemma RecoveredMember(s: Log, r: Rec)
    requires Shape(s)
    ensures r in Recovered(s) <==> InWal(s, r)
  {
    ReplayMember(s.segs, s.activeSeq + 2, r);
  }

  lemma {:induction false} ReplayCongruent(a: map<nat, File>, b: map<nat, File>, n: nat)
    requires forall q :: q < n ==> (q in a <==> q in b) && (q in a ==> Recs(a[q].cells) == Recs(b[q].cells))
    ensures Replay(a, n) == Replay(b, n)
  {
    if n > 0 { ReplayCongruent(a, b, n - 1); }
  }

  /** The lines of a write that are records of their own afterwards. */
  function Landing(ragged: bool, lines: seq<Rec>, k: nat): (r: seq<Rec>)
    requires k <= |lines|
    ensures r == lines <==> lines == [] || (!ragged && k == |lines|)
    ensures r != lines ==> |r| < |lines|
  {
    if ragged && k > 0 then lines[1..k] else lines[..k]
  }

  lemma {:induction false} WrittenRecs(ragged: bool, lines: seq<Rec>)
    ensures Recs(Written(ragged, lines)) == if ragged && |lines| > 0 then lines[1..] else lines
  {
    if ragged && lines != [] {
      RecsAppend([Glued(lines[0])], AsLines(lines[1..]));
      assert [Glued(lines[0])][..0] == [];
      RecsOfLines(lines[1..]);
    } else {
      RecsOfLines(lines);
    }
  }

  lemma LandRecs(f: File, lines: seq<Rec>, k: nat, tear: nat)
    requires k <= |lines| && (tear > 0 ==> k < |lines|)
    ensures Recs(Land(f, lines, k, tear).cells) == Recs(f.cells) + Landing(f.ragged, lines, k)
  {
    var cells := Written(f.ragged, lines[..k]);
    var scrap := if tear > 0 then [Torn(lines[k], tear)] else [];
    RecsAppend(f.cells, cells);
    RecsAppend(f.cells + cells, scrap);
    WrittenRecs(f.ragged, lines[..k]);
    assert tear > 0 ==> scrap[..0] == [];
    assert Recs(scrap) == [];
    assert k > 0 ==> lines[..k][1..] == lines[1..k];
  }

  /**
   A successful write puts every line of the batch on stable storage if and only if the
   file did not end in a torn line: otherwise the first line is the one that is lost.
   */
  lemma SyncedWriteIsDurableIffAligned(s: Log, lines: seq<Rec>)
    requires Shape(s) && s.open && lines != []
    requires forall i, j :: 0 <= i < j < |lines| ==> lines[i] != lines[j]
    requires forall i :: 0 <= i < |lines| ==> !InWal(s, lines[i])
    ensures var t := s.(segs := WriteActive(s, lines, Synced).0);
            && (forall r :: r in lines[1..] ==> Durable(t, r))
            && (Durable(t, lines[0]) <==> !s.segs[s.activeSeq].ragged)
  {
    var f := s.segs[s.activeSeq];
    var t := s.(segs := WriteActive(s, lines, Synced).0);
    var g := t.segs[s.activeSeq];
    assert lines[..|lines|] == lines;
    assert g.cells == f.cells + Written(f.ragged, lines);
    assert g.cells[..g.synced] == g.cells;
    forall i | 0 <= i < |lines| && !(f.ragged && i == 0) ensures Durable(t, lines[i]) {
      assert g.cells[|f.cells| + i] == Line(lines[i]);
    }
    if f.ragged {
      forall q | q in t.segs ensures Line(lines[0]) !in t.segs[q].cells {
        assert Line(lines[0]) !in s.segs[q].cells;
        forall i | 0 < i < |lines| ensures lines[i] != lines[0] {}
      }
    }
  }

  function Below(s: Log, upto: nat): set<nat>
  {
    set q | q in s.segs && q <= upto && q != s.activeSeq
  }

  lemma {:induction false} ReplayExtended(a: map<nat, File>, b: map<nat, File>, top: nat, n: nat, lines: seq<Rec>)
    requires top < n && top in a && a.Keys == b.Keys
    requires forall q :: q in a ==> q <= top && (q < top ==> a[q] == b[q])
    requires Recs(b[top].cells) == Recs(a[top].cells) + lines
    ensures Replay(b, n) == Replay(a, n) + lines
  {
    if n == top + 1 {
      ReplayCongruent(a, b, top);
      assert Replay(a, top) + (Recs(a[top].cells) + lines) == Replay(a, top) + Recs(a[top].cells) + lines;
    } else {
      ReplayExtended(a, b, top, n - 1, lines);
    }
  }

  /** How many whole lines reach the file. */
  function LinesDown(lines: seq<Rec>, r: Io): (k: nat)
    ensures k <= |lines|
  {
    if r.WriteFailed? then Min(r.k, |lines|) else |lines|
  }

  /** A write to the active segment, whole or not, extends what recovery reads, at the end. */
  lemma RecoveredAfterIo(s: Log, lines: seq<Rec>, r: Io)
    requires Shape(s) && s.open
    ensures Replay(WriteActive(s, lines, r).0, s.activeSeq + 2) ==
            Recovered(s) + Landing(s.segs[s.activeSeq].ragged, lines, LinesDown(lines, r))
  {
    var f := s.segs[s.activeSeq];
    var k := LinesDown(lines, r);
    LandRecs(f, lines, k, if r.WriteFailed? && k < |lines| then r.tear else 0);
    ReplayExtended(s.segs, WriteActive(s, lines, r).0, s.activeSeq, s.activeSeq + 2, Landing(f.ragged, lines, k));
  }

  lemma RecoveredAfterWrite(s: Log, lines: seq<Rec>)
    requires Shape(s) && s.open && (lines == [] || !s.segs[s.activeSeq].ragged)
    ensures var segs := WriteActive(s, lines, Synced).0;
            Replay(segs, s.activeSeq + 2) == Recovered(s) + lines
  {
    RecoveredAfterIo(s, lines, Synced);
  }

  lemma RecoveredAfterRotate(s: Log)
    requires Shape(s) && s.open
    ensures Recovered(Rotate(s, Rotated).0) == Recovered(s)
  {
    var t := Rotate(s, Rotated).0;
    ReplayCongruent(t.segs, s.segs, s.activeSeq + 1);
    assert t.activeSeq + 1 !in t.segs;
    assert Replay(t.segs, s.activeSeq + 3) == Replay(t.segs, s.activeSeq + 2);
    assert Replay(t.segs, s.activeSeq + 2) == Replay(t.segs, s.activeSeq + 1) + [];
  }

  /** Segments split at a sequence number replay as the low ones, then the high ones. */
  lemma {:induction false} ReplaySplit(segs: map<nat, File>, low: set<nat>, cut: nat, n: nat)
    requires forall q :: q in segs ==> (q in low <==> q < cut)
    ensures Replay(segs, n) == Replay(segs - (segs.Keys - low), n) + Replay(segs - low, n)
  {
    if n > 0 {
      ReplaySplit(segs, low, cut, n - 1);
      if n - 1 in segs && n - 1 in low {
        assert Replay(segs - low, n - 1) == [] by { ReplayEmpty(segs - low, n - 1); }
      }
    }
  }

  lemma {:induction false} ReplayEmpty(segs: map<nat, File>, n: nat)
    requires forall q :: q in segs ==> q >= n
    ensures Replay(segs, n) == []
  {
    if n > 0 { ReplayEmpty(segs, n - 1); }
  }

  function InFlight(s: Log): seq<Rec> { if s.io.Some? then s.io.value.buf else [] }
}
