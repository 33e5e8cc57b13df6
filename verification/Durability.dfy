/** The write path over all runs. */
module Durability {
  // One node's write path: Write pairs the memtable with the log, flush drains the memtable
  // into a part and discards the sealed segments, and the process may crash at any point.
  //
  // Every step is one critical section of the program. `writeMu` is held exactly while the
  // flush is `Snapped` (between taking the snapshot and sealing the log) and `flushMu` while
  // it is not `Idle`.

  import opened Prelude
  import opened SegmentLog

  datatype Flush =
    | Idle
    | Snapped(snap: seq<Rec>)
    | Sealed(snap: seq<Rec>, upto: nat)
    | Committed(snap: seq<Rec>, upto: nat)

  datatype Node = Node(
    log: Log,
    mem: seq<Rec>,
    next: nat, // records 0 .. next-1 have been handed to Write
    flush: Flush,
    parts: seq<seq<Rec>>, // parts whose file is kept and whose PUT is in the global log
    acked: set<Rec>) // records of batches for which some Wait returned nil

  datatype Action =
    | Write(n: nat)
    | Wait(c: nat)
    | Lead(c: nat)
    | Finish(r: Io)
    | Snapshot
    | SealLog(r: Io, rot: Rotation)
    | PersistFails
    | CommitPart
    | DiscardLog(gone: set<nat>)
    | Crash(cuts: map<nat, Cut>)

  const START := Node(FRESH, [], 0, Idle, [], {})

  function Fresh(from: nat, n: nat): seq<Rec> { seq(n, i requires 0 <= i < n => from + i) }

  function Elems(rs: seq<Rec>): set<Rec> { set r | r in rs }

  ghost predicate Enabled(s: Node, a: Action)
    requires Shape(s.log)
  {
    match a
    case Write(_) => !s.flush.Snapped?
    case Wait(c) => s.log.io.None? && c < |s.log.batches| && s.log.batches[c].res.Some?
    case Lead(c) => s.log.io.None? && Unresolved(s.log, c)
    case Finish(_) => s.log.io.Some?
    case Snapshot => s.flush.Idle? && s.mem != []
    case SealLog(_, _) => s.flush.Snapped? && s.log.io.None?
    case PersistFails => s.flush.Sealed?
    case CommitPart => s.flush.Sealed?
    case DiscardLog(gone) => s.flush.Committed? && s.log.io.None? && Removable(s.log, s.flush.upto, gone)
    case Crash(cuts) => Survives(s.log, cuts)
  }

  ghost function Step(s: Node, a: Action): Node
    requires Shape(s.log) && Enabled(s, a)
  {
    match a
    case Write(n) =>
      var buf := Fresh(s.next, n);
      s.(log := Enqueue(s.log, buf), mem := s.mem + buf, next := s.next + n)
    case Wait(c) =>
      if s.log.batches[c].res == Some(true) then s.(acked := s.acked + Elems(s.log.batches[c].lines)) else s
    case Lead(c) => s.(log := TakePending(s.log, c))
    case Finish(r) =>
      var w := s.log.io.value.waiter;
      var acked := if LeaderReturnsNil(s.log, r) then Elems(s.log.batches[w].lines) else {};
      s.(log := FinishFlush(s.log, r), acked := s.acked + acked)
    case Snapshot => s.(mem := [], flush := Snapped(s.mem))
    case SealLog(r, rot) =>
      var (log, sealed) := Seal(s.log, r, rot);
      if sealed.Some? then s.(log := log, flush := Sealed(s.flush.snap, sealed.value))
      else s.(log := log, mem := s.mem + s.flush.snap, flush := Idle)
    case PersistFails => s.(mem := s.mem + s.flush.snap, flush := Idle)
    case CommitPart => s.(parts := s.parts + [s.flush.snap], flush := Committed(s.flush.snap, s.flush.upto))
    case DiscardLog(gone) => s.(log := Discard(s.log, gone), flush := Idle)
    case Crash(cuts) =>
      var log := Reopen(s.log, cuts);
      s.(log := log, mem := Recovered(log), flush := Idle)
  }

  // ---------- where a record is ----------

  ghost predicate InParts(s: Node, r: Rec) { exists i :: 0 <= i < |s.parts| && r in s.parts[i] }

  function SnapOf(f: Flush): seq<Rec> { if f.Idle? then [] else f.snap }

  /** Held in memory or already in a committed part. */
  ghost predicate Kept(s: Node, r: Rec) { r in s.mem || r in SnapOf(s.flush) || InParts(s, r) }

  /** Fsynced as a line of its own in a segment, or in a committed part. */
  ghost predicate Safe(s: Node, r: Rec) { Durable(s.log, r) || InParts(s, r) }

  // ---------- the invariant of every run ----------

  /** Whatever is in the log, in flight or pending is also kept elsewhere by the node. */
  ghost predicate Mirrored(s: Node)
  {
    && (forall r :: InWal(s.log, r) ==> Kept(s, r))
    && (forall r :: r in s.log.pending ==> Kept(s, r))
    && (s.log.io.Some? ==> forall r :: r in s.log.io.value.buf ==> Kept(s, r))
  }

  /** What a discard may remove is in the snapshot being flushed, or in an earlier part. */
  ghost predicate SealedCovered(s: Node)
  {
    && (s.flush.Snapped? ==> s.mem == [])
    && (s.flush.Sealed? || s.flush.Committed? ==>
          && s.flush.upto < s.log.activeSeq
          && forall q, r :: q in s.log.segs && q <= s.flush.upto && Line(r) in s.log.segs[q].cells
                            ==> r in s.flush.snap || InParts(s, r))
    && (s.flush.Committed? ==> forall r :: r in s.flush.snap ==> InParts(s, r))
  }

  ghost predicate Core(s: Node)
  {
    Shape(s.log) && Mirrored(s) && SealedCovered(s)
  }

  ghost predicate AllSafe(s: Node, rs: seq<Rec>) { forall r :: r in rs ==> Safe(s, r) }

  /** Every batch whose Wait can return nil, or already has, is safe. */
  ghost predicate AckedSafe(s: Node)
  {
    && (forall r :: r in s.acked ==> Safe(s, r))
    && (forall b :: 0 <= b < |s.log.batches| && s.log.batches[b].res == Some(true) ==> AllSafe(s, s.log.batches[b].lines))
  }

  /** The active file ends in a newline whenever a batch is written to it and synced. */
  ghost predicate Aligned(s: Node, a: Action)
    requires Shape(s.log)
  {
    match a
    case Finish(Synced) => s.log.open && InFlight(s.log) != [] ==> !s.log.segs[s.log.activeSeq].ragged
    case SealLog(Synced, _) => s.log.open && s.log.pending != [] ==> !s.log.segs[s.log.activeSeq].ragged
    case _ => true
  }

  // ---------- the log under one write ----------

  lemma WrittenInWal(s: Log, lines: seq<Rec>, r: Io, x: Rec)
    requires Shape(s)
    requires InWal(s.(segs := WriteActive(s, lines, r).0), x)
    ensures InWal(s, x) || x in lines
  {
    var segs := WriteActive(s, lines, r).0;
    var q :| q in segs && Line(x) in segs[q].cells;
    if segs[q] == s.segs[q] {
      assert Line(x) in s.segs[q].cells;
    } else {
      var f := s.segs[q];
      var i :| 0 <= i < |segs[q].cells| && segs[q].cells[i] == Line(x);
      if i < |f.cells| { assert Line(x) in f.cells; }
    }
  }

  lemma WriteKeepsDurable(s: Log, lines: seq<Rec>, r: Io, x: Rec)
    requires Shape(s) && Durable(s, x)
    ensures Durable(s.(segs := WriteActive(s, lines, r).0), x)
  {
    var segs := WriteActive(s, lines, r).0;
    var q :| q in s.segs && Line(x) in s.segs[q].cells[..s.segs[q].synced];
    var i :| 0 <= i < s.segs[q].synced && s.segs[q].cells[i] == Line(x);
    assert segs[q].cells[i] == Line(x) && i < segs[q].synced;
    assert Line(x) in segs[q].cells[..segs[q].synced];
  }

  lemma CleanWriteIsDurable(s: Log, lines: seq<Rec>, r: Io, x: Rec)
    requires Shape(s) && WriteActive(s, lines, r).1 && x in lines
    requires !s.segs[s.activeSeq].ragged
    ensures Durable(s.(segs := WriteActive(s, lines, r).0), x)
  {
    var g := WriteActive(s, lines, r).0[s.activeSeq];
    var i :| 0 <= i < |lines| && lines[i] == x;
    assert g.cells[|s.segs[s.activeSeq].cells| + i] == Line(x);
    assert Line(x) in g.cells[..g.synced];
  }

  // ---------- Core is kept by every step ----------

  lemma WriteKeepsCore(s: Node, n: nat)
    requires Core(s) && Enabled(s, Write(n))
    ensures Core(Step(s, Write(n)))
  {
    EnqueueKeepsShape(s.log, Fresh(s.next, n));
    var t := Step(s, Write(n));
    assert t.log.segs == s.log.segs;
    forall r | Kept(s, r) ensures Kept(t, r) {}
    forall r | r in t.log.pending ensures Kept(t, r) {}
    forall r | InWal(t.log, r) ensures Kept(t, r) { assert InWal(s.log, r); }
  }

  lemma FinishKeepsCore(s: Node, r: Io)
    requires Core(s) && Enabled(s, Finish(r))
    ensures Core(Step(s, Finish(r)))
  {
    FinishFlushKeepsShape(s.log, r);
    WriteActiveKeeps(s.log, s.log.io.value.buf, r);
    var t := Step(s, Finish(r));
    forall x | InWal(t.log, x) ensures Kept(t, x) {
      WrittenInWal(s.log, s.log.io.value.buf, r, x);
      assert Kept(s, x);
    }
    forall x | x in t.log.pending ensures Kept(t, x) { assert Kept(s, x); }
  }

  lemma SnapshotKeepsCore(s: Node)
    requires Core(s) && Enabled(s, Snapshot)
    ensures Core(Step(s, Snapshot))
  {
    var t := Step(s, Snapshot);
    forall r | Kept(s, r) ensures Kept(t, r) {}
  }

  lemma RotatedInWal(s: Log, rot: Rotation, x: Rec)
    requires InWal(Rotate(s, rot).0, x)
    ensures InWal(s, x)
  {
    var t := Rotate(s, rot).0;
    var q :| q in t.segs && Line(x) in t.segs[q].cells;
    assert q in s.segs && Line(x) in s.segs[q].cells;
  }

  lemma SealedInWal(s: Log, r: Io, rot: Rotation, x: Rec)
    requires Shape(s) && s.io.None? && InWal(Seal(s, r, rot).0, x)
    ensures InWal(s, x) || x in s.pending
  {
    var (t, ok) := SealPending(s, r);
    if ok { RotatedInWal(t, rot, x); }
    if s.cur.Some? {
      assert InWal(s.(segs := t.segs), x);
      WrittenInWal(s, s.pending, r, x);
    }
  }

  lemma SealKeepsCore(s: Node, r: Io, rot: Rotation)
    requires Core(s) && Enabled(s, SealLog(r, rot))
    ensures Core(Step(s, SealLog(r, rot)))
  {
    SealKeepsShape(s.log, r, rot);
    var t := Step(s, SealLog(r, rot));
    forall x | Kept(s, x) ensures Kept(t, x) {}
    forall x | InWal(t.log, x) ensures Kept(s, x) {
      SealedInWal(s.log, r, rot, x);
    }
    if t.flush.Sealed? {
      forall q, x | q in t.log.segs && q <= t.flush.upto && Line(x) in t.log.segs[q].cells
        ensures x in t.flush.snap || InParts(t, x)
      {
        assert InWal(t.log, x);
        assert Kept(s, x);
      }
    }
  }

  lemma PersistFailsKeepsCore(s: Node)
    requires Core(s) && Enabled(s, PersistFails)
    ensures Core(Step(s, PersistFails))
  {
    var t := Step(s, PersistFails);
    forall r | Kept(s, r) ensures Kept(t, r) {}
  }

  lemma CommitPartKeepsCore(s: Node)
    requires Core(s) && Enabled(s, CommitPart)
    ensures Core(Step(s, CommitPart))
  {
    var t := Step(s, CommitPart);
    forall r | InParts(s, r) ensures InParts(t, r) { PartsGrow(s, t, r); }
    forall r | r in s.flush.snap ensures InParts(t, r) { assert r in t.parts[|s.parts|]; }
    forall r | Kept(s, r) ensures Kept(t, r) {}
  }

  lemma PartsGrow(s: Node, t: Node, r: Rec)
    requires InParts(s, r) && s.parts <= t.parts
    ensures InParts(t, r)
  {
    var i :| 0 <= i < |s.parts| && r in s.parts[i];
    assert r in t.parts[i];
  }

  lemma DiscardKeepsCore(s: Node, gone: set<nat>)
    requires Core(s) && Enabled(s, DiscardLog(gone))
    ensures Core(Step(s, DiscardLog(gone)))
  {
    var t := Step(s, DiscardLog(gone));
    assert forall b: nat :: Unresolved(t.log, b) ==> Unresolved(s.log, b);
    forall r | Kept(s, r) ensures Kept(t, r) {}
    forall r | InWal(t.log, r) ensures Kept(t, r) {
      var q :| q in t.log.segs && Line(r) in t.log.segs[q].cells;
      assert InWal(s.log, r);
    }
  }

  lemma CrashKeepsCore(s: Node, cuts: map<nat, Cut>)
    requires Core(s) && Enabled(s, Crash(cuts))
    ensures Core(Step(s, Crash(cuts)))
  {
    ReopenKeepsShape(s.log, cuts);
    var t := Step(s, Crash(cuts));
    forall r | InWal(t.log, r) ensures Kept(t, r) { RecoveredMember(t.log, r); }
  }

  lemma StepKeepsCore(s: Node, a: Action)
    requires Core(s) && Enabled(s, a)
    ensures Core(Step(s, a))
  {
    match a {
      case Write(n) => WriteKeepsCore(s, n);
      case Wait(c) => WaitKeepsCore(s, c);
      case Lead(c) => LeadKeepsCore(s, c);
      case Finish(r) => FinishKeepsCore(s, r);
      case Snapshot => SnapshotKeepsCore(s);
      case SealLog(r, rot) => SealKeepsCore(s, r, rot);
      case PersistFails => PersistFailsKeepsCore(s);
      case CommitPart => CommitPartKeepsCore(s);
      case DiscardLog(gone) => DiscardKeepsCore(s, gone);
      case Crash(cuts) => CrashKeepsCore(s, cuts);
    }
  }

  lemma WaitKeepsCore(s: Node, c: nat)
    requires Core(s) && Enabled(s, Wait(c))
    ensures Core(Step(s, Wait(c)))
  {
    var t := Step(s, Wait(c));
    forall r | Kept(s, r) ensures Kept(t, r) {}
  }

  lemma LeadKeepsCore(s: Node, c: nat)
    requires Core(s) && Enabled(s, Lead(c))
    ensures Core(Step(s, Lead(c)))
  {
    TakePendingKeepsShape(s.log, c);
    var t := Step(s, Lead(c));
    forall r | Kept(s, r) ensures Kept(t, r) {}
    forall r | InWal(t.log, r) ensures Kept(t, r) { assert InWal(s.log, r); }
  }

  // ---------- acknowledged records stay safe ----------

  lemma SafeCarries(s: Node, t: Node)
    requires forall r :: Safe(s, r) ==> Safe(t, r)
    requires AckedSafe(s) && t.acked == s.acked
    requires forall b :: 0 <= b < |t.log.batches| && t.log.batches[b].res == Some(true)
                         ==> b < |s.log.batches| && s.log.batches[b] == t.log.batches[b]
    ensures AckedSafe(t)
  {
    forall b | 0 <= b < |t.log.batches| && t.log.batches[b].res == Some(true)
      ensures AllSafe(t, t.log.batches[b].lines)
    {
      assert AllSafe(s, s.log.batches[b].lines);
    }
  }

  lemma WriteKeepsAcked(s: Node, n: nat)
    requires Core(s) && AckedSafe(s) && Enabled(s, Write(n))
    ensures AckedSafe(Step(s, Write(n)))
  {
    var t := Step(s, Write(n));
    assert t.log.segs == s.log.segs;
    forall r | Safe(s, r) ensures Safe(t, r) { assert Durable(s.log, r) ==> Durable(t.log, r); }
    SafeCarries(s, t);
  }

  lemma WaitKeepsAcked(s: Node, c: nat)
    requires Core(s) && AckedSafe(s) && Enabled(s, Wait(c))
    ensures AckedSafe(Step(s, Wait(c)))
  {
    var t := Step(s, Wait(c));
    assert forall r :: Safe(s, r) ==> Safe(t, r);
    assert s.log.batches[c].res == Some(true) ==> AllSafe(s, s.log.batches[c].lines);
    forall b | 0 <= b < |t.log.batches| && t.log.batches[b].res == Some(true)
      ensures AllSafe(t, t.log.batches[b].lines)
    {
      assert AllSafe(s, s.log.batches[b].lines);
    }
  }

  lemma FinishKeepsAcked(s: Node, r: Io)
    requires Core(s) && AckedSafe(s) && Enabled(s, Finish(r)) && Aligned(s, Finish(r))
    ensures AckedSafe(Step(s, Finish(r)))
  {
    var l := s.log.io.value;
    var t := Step(s, Finish(r));
    var u := s.log.(segs := WriteActive(s.log, l.buf, r).0);
    forall x | Safe(s, x) ensures Safe(t, x) {
      if Durable(s.log, x) { WriteKeepsDurable(s.log, l.buf, r, x); assert Durable(u, x); }
    }
    if WriteActive(s.log, l.buf, r).1 {
      forall x | x in l.buf ensures Safe(t, x) {
        CleanWriteIsDurable(s.log, l.buf, r, x);
        assert Durable(u, x);
      }
    }
    forall b | 0 <= b < |t.log.batches| && t.log.batches[b].res == Some(true)
      ensures AllSafe(t, t.log.batches[b].lines)
    {
      if b != l.waiter { assert AllSafe(s, s.log.batches[b].lines); }
    }
  }

  lemma SealKeepsAcked(s: Node, r: Io, rot: Rotation)
    requires Core(s) && AckedSafe(s) && Enabled(s, SealLog(r, rot)) && Aligned(s, SealLog(r, rot))
    ensures AckedSafe(Step(s, SealLog(r, rot)))
  {
    var t := Step(s, SealLog(r, rot));
    var (v, ok) := SealPending(s.log, r);
    forall x | Safe(s, x) ensures Safe(t, x) {
      if Durable(s.log, x) {
        if s.log.cur.Some? { WriteKeepsDurable(s.log, s.log.pending, r, x); }
        assert Durable(v, x);
        RotateKeepsDurable(v, rot, x);
      }
    }
    forall b | 0 <= b < |t.log.batches| && t.log.batches[b].res == Some(true)
      ensures AllSafe(t, t.log.batches[b].lines)
    {
      if s.log.cur != Some(b) {
        assert AllSafe(s, s.log.batches[b].lines);
      } else {
        forall x | x in s.log.pending ensures Safe(t, x) {
          CleanWriteIsDurable(s.log, s.log.pending, r, x);
          assert Durable(v, x);
          RotateKeepsDurable(v, rot, x);
        }
      }
    }
  }

  lemma RotateKeepsDurable(s: Log, rot: Rotation, x: Rec)
    requires Durable(s, x)
    ensures Durable(Rotate(s, rot).0, x)
  {
    var t := Rotate(s, rot).0;
    var q :| q in s.segs && s.segs[q].synced <= |s.segs[q].cells|
             && Line(x) in s.segs[q].cells[..s.segs[q].synced];
    assert q in t.segs && t.segs[q] == s.segs[q];
  }

  lemma CommitPartKeepsAcked(s: Node)
    requires Core(s) && AckedSafe(s) && Enabled(s, CommitPart)
    ensures AckedSafe(Step(s, CommitPart))
  {
    var t := Step(s, CommitPart);
    forall r | Safe(s, r) ensures Safe(t, r) { if InParts(s, r) { PartsGrow(s, t, r); } }
    SafeCarries(s, t);
  }

  lemma DiscardKeepsAcked(s: Node, gone: set<nat>)
    requires Core(s) && AckedSafe(s) && Enabled(s, DiscardLog(gone))
    ensures AckedSafe(Step(s, DiscardLog(gone)))
  {
    var t := Step(s, DiscardLog(gone));
    forall r | Safe(s, r) ensures Safe(t, r) {
      if Durable(s.log, r) {
        var q :| q in s.log.segs && Line(r) in s.log.segs[q].cells[..s.log.segs[q].synced];
        if q in gone {
          assert Line(r) in s.log.segs[q].cells;
          assert InParts(s, r);
        } else {
          assert q in t.log.segs && t.log.segs[q] == s.log.segs[q];
        }
      }
    }
    SafeCarries(s, t);
  }

  lemma CrashKeepsAcked(s: Node, cuts: map<nat, Cut>)
    requires Core(s) && AckedSafe(s) && Enabled(s, Crash(cuts))
    ensures AckedSafe(Step(s, Crash(cuts)))
  {
    var t := Step(s, Crash(cuts));
    forall r | Safe(s, r) ensures Safe(t, r) {
      if Durable(s.log, r) {
        var q :| q in s.log.segs && Line(r) in s.log.segs[q].cells[..s.log.segs[q].synced];
        var f, g := s.log.segs[q], t.log.segs[q];
        var i :| 0 <= i < f.synced && f.cells[i] == Line(r);
        assert g.cells[i] == Line(r) && g.synced == |g.cells|;
        assert Line(r) in g.cells[..g.synced];
      }
    }
    SafeCarries(s, t);
  }

  lemma StepKeepsAcked(s: Node, a: Action)
    requires Core(s) && AckedSafe(s) && Enabled(s, a) && Aligned(s, a)
    ensures AckedSafe(Step(s, a))
  {
    match a {
      case Write(n) => WriteKeepsAcked(s, n);
      case Wait(c) => WaitKeepsAcked(s, c);
      case Finish(r) => FinishKeepsAcked(s, r);
      case SealLog(r, rot) => SealKeepsAcked(s, r, rot);
      case CommitPart => CommitPartKeepsAcked(s);
      case DiscardLog(gone) => DiscardKeepsAcked(s, gone);
      case Crash(cuts) => CrashKeepsAcked(s, cuts);
      case _ => QuietKeepsAcked(s, a);
    }
  }

  lemma QuietKeepsAcked(s: Node, a: Action)
    requires Core(s) && AckedSafe(s) && Enabled(s, a)
    requires a.Lead? || a.Snapshot? || a.PersistFails?
    ensures AckedSafe(Step(s, a))
  {
    var t := Step(s, a);
    assert t.log.segs == s.log.segs && t.parts == s.parts;
    forall r | Safe(s, r) ensures Safe(t, r) { assert Durable(s.log, r) ==> Durable(t.log, r); }
    SafeCarries(s, t);
  }

  // ---------- records on their way to the log are nowhere else ----------

  ghost predicate Known(s: Node, r: Rec) { InWal(s.log, r) || Kept(s, r) }

  /** Pending and in-flight records are distinct, new to the segments and to the parts. */
  ghost predicate Novel(s: Node)
  {
    && (forall r: Rec :: Known(s, r) ==> r < s.next)
    && var way := InFlight(s.log) + s.log.pending;
    && (forall i, j :: 0 <= i < j < |way| ==> way[i] != way[j])
    && (forall r :: r in way ==> r < s.next && !InWal(s.log, r) && !InParts(s, r))
    && (s.flush.Sealed? || s.flush.Committed? ==> forall r :: r in way ==> r !in s.flush.snap)
  }

  lemma WriteKnows(s: Node, n: nat, r: Rec)
    requires Core(s) && Enabled(s, Write(n)) && Known(Step(s, Write(n)), r)
    ensures Known(s, r) || s.next <= r < s.next + n
  {
    assert Step(s, Write(n)).log.segs == s.log.segs;
  }

  lemma FreshStaysDistinct(way: seq<Rec>, from: nat, n: nat)
    requires forall i, j :: 0 <= i < j < |way| ==> way[i] != way[j]
    requires forall r :: r in way ==> r < from
    ensures var all := way + Fresh(from, n);
            forall i, j :: 0 <= i < j < |all| ==> all[i] != all[j]
  {
    forall i | 0 <= i < |way| ensures way[i] < from { assert way[i] in way; }
  }

  lemma WriteWay(s: Node, n: nat, r: Rec)
    requires Core(s) && Novel(s) && Enabled(s, Write(n))
    requires r in InFlight(s.log) + s.log.pending + Fresh(s.next, n)
    ensures var t := Step(s, Write(n));
            && r < t.next && !InWal(t.log, r) && !InParts(t, r)
            && (s.flush.Sealed? || s.flush.Committed? ==> r !in s.flush.snap)
  {
    assert Step(s, Write(n)).log.segs == s.log.segs;
    if r !in InFlight(s.log) + s.log.pending { assert !Known(s, r); }
  }

  lemma WriteKeepsNovel(s: Node, n: nat)
    requires Core(s) && Novel(s) && Enabled(s, Write(n))
    ensures Novel(Step(s, Write(n)))
  {
    var t := Step(s, Write(n));
    var way := InFlight(s.log) + s.log.pending;
    var way' := way + Fresh(s.next, n);
    assert InFlight(t.log) + t.log.pending == way';
    FreshStaysDistinct(way, s.next, n);
    forall r: Rec | Known(t, r) ensures r < t.next { WriteKnows(s, n, r); }
    forall r | r in way'
      ensures r < t.next && !InWal(t.log, r) && !InParts(t, r)
      ensures t.flush.Sealed? || t.flush.Committed? ==> r !in t.flush.snap
    {
      WriteWay(s, n, r);
    }
  }

  lemma WriteMovesNovel(s: Node, t: Node, lines: seq<Rec>, r: Io)
    requires Core(s) && Novel(s)
    requires t.log.segs == WriteActive(s.log, lines, r).0
    requires t.parts == s.parts && t.mem == s.mem && t.flush == s.flush && t.next == s.next
    requires InFlight(s.log) + s.log.pending == lines + InFlight(t.log) + t.log.pending
    ensures Novel(t)
  {
    var way := lines + (InFlight(t.log) + t.log.pending);
    var rest := InFlight(t.log) + t.log.pending;
    assert InFlight(s.log) + s.log.pending == way;
    forall x | InWal(t.log, x) ensures InWal(s.log, x) || x in lines {
      WrittenInWal(s.log, lines, r, x);
    }
    forall x | x in lines ensures x < s.next { assert x in way; }
    forall x: Rec | Known(t, x) ensures x < t.next { assert Known(s, x) || x in lines; }
    forall i, j | 0 <= i < j < |rest| ensures rest[i] != rest[j] {
      assert way[|lines| + i] != way[|lines| + j];
    }
    forall x | x in rest ensures x < t.next && !InWal(t.log, x) && !InParts(t, x) && x in way {
      assert x in way;
      var j :| 0 <= j < |rest| && rest[j] == x;
      forall i | 0 <= i < |lines| ensures lines[i] != x { assert way[i] != way[|lines| + j]; }
    }
  }

  lemma FinishKeepsNovel(s: Node, r: Io)
    requires Core(s) && Novel(s) && Enabled(s, Finish(r))
    ensures Novel(Step(s, Finish(r)))
  {
    var t := Step(s, Finish(r));
    assert InFlight(s.log) + s.log.pending == s.log.io.value.buf + [] + s.log.pending;
    WriteMovesNovel(s, t, s.log.io.value.buf, r);
  }

  lemma SealKeepsNovel(s: Node, r: Io, rot: Rotation)
    requires Core(s) && Novel(s) && Enabled(s, SealLog(r, rot))
    ensures Novel(Step(s, SealLog(r, rot)))
  {
    var t := Step(s, SealLog(r, rot));
    SealKeepsShape(s.log, r, rot);
    SealPendingKeepsShape(s.log, r);
    assert InFlight(t.log) + t.log.pending == [];
    assert forall x :: x in s.log.pending ==> x in InFlight(s.log) + s.log.pending;
    forall x: Rec | Known(t, x) ensures x < t.next {
      if InWal(t.log, x) { SealedInWal(s.log, r, rot, x); }
      assert Known(s, x) || x in s.log.pending;
    }
  }

  lemma OtherKeepsNovel(s: Node, a: Action)
    requires Core(s) && Novel(s) && Enabled(s, a)
    requires a.Wait? || a.Lead? || a.Snapshot? || a.PersistFails?
    ensures Novel(Step(s, a))
  {
    var t := Step(s, a);
    if a.Lead? { TakePendingKeepsShape(s.log, a.c); }
    assert InFlight(t.log) + t.log.pending == InFlight(s.log) + s.log.pending;
    forall r ensures InWal(t.log, r) == InWal(s.log, r) && InParts(t, r) == InParts(s, r) {}
    forall r: Rec | Known(t, r) ensures r < t.next { assert Known(s, r); }
  }

  lemma CommitPartKeepsNovel(s: Node)
    requires Core(s) && Novel(s) && Enabled(s, CommitPart)
    ensures Novel(Step(s, CommitPart))
  {
    var t := Step(s, CommitPart);
    forall r | InParts(t, r) ensures InParts(s, r) || r in s.flush.snap {
      var i :| 0 <= i < |t.parts| && r in t.parts[i];
      if i < |s.parts| { assert r in s.parts[i]; }
    }
    forall r: Rec | Known(t, r) ensures r < t.next { assert Known(s, r); }
  }

  lemma DiscardKeepsNovel(s: Node, gone: set<nat>)
    requires Core(s) && Novel(s) && Enabled(s, DiscardLog(gone))
    ensures Novel(Step(s, DiscardLog(gone)))
  {
    var t := Step(s, DiscardLog(gone));
    forall r | InWal(t.log, r) ensures InWal(s.log, r) {
      var q :| q in t.log.segs && Line(r) in t.log.segs[q].cells;
      assert q in s.log.segs;
    }
    forall r ensures InParts(t, r) == InParts(s, r) {}
    assert InFlight(t.log) + t.log.pending == InFlight(s.log) + s.log.pending;
    hide Core, InWal, InParts, Enabled, InFlight;
    forall r: Rec | Known(t, r) ensures r < t.next { assert Known(s, r); }
  }

  lemma CrashKeepsNovel(s: Node, cuts: map<nat, Cut>)
    requires Core(s) && Novel(s) && Enabled(s, Crash(cuts))
    ensures Novel(Step(s, Crash(cuts)))
  {
    ReopenKeepsShape(s.log, cuts);
    var t := Step(s, Crash(cuts));
    forall r | InWal(t.log, r) ensures InWal(s.log, r) {
      var q :| q in t.log.segs && Line(r) in t.log.segs[q].cells;
      var i :| 0 <= i < |t.log.segs[q].cells| && t.log.segs[q].cells[i] == Line(r);
      assert s.log.segs[q].cells[i] == Line(r);
    }
    forall r | r in t.mem ensures InWal(t.log, r) { RecoveredMember(t.log, r); }
    forall r ensures InParts(t, r) == InParts(s, r) {}
    forall r: Rec | Known(t, r) ensures r < t.next { assert Known(s, r); }
  }

  lemma StepKeepsNovel(s: Node, a: Action)
    requires Core(s) && Novel(s) && Enabled(s, a)
    ensures Novel(Step(s, a))
  {
    match a {
      case Write(n) => WriteKeepsNovel(s, n);
      case Finish(r) => FinishKeepsNovel(s, r);
      case SealLog(r, rot) => SealKeepsNovel(s, r, rot);
      case CommitPart => CommitPartKeepsNovel(s);
      case DiscardLog(gone) => DiscardKeepsNovel(s, gone);
      case Crash(cuts) => CrashKeepsNovel(s, cuts);
      case _ => OtherKeepsNovel(s, a);
    }
  }

  // ---------- runs ----------

  /** Any sequence of actions from an empty node; an action that is not enabled waits. */
  ghost function Run(acts: seq<Action>): (s: Node)
    ensures Core(s) && Novel(s)
  {
    if acts == [] then
      START
    else
      var s := Run(acts[..|acts| - 1]);
      var a := acts[|acts| - 1];
      if Enabled(s, a) then
        StepKeepsCore(s, a);
        StepKeepsNovel(s, a);
        Step(s, a)
      else s
  }

  /** Every batch that was written and synced met a file ending in a newline. */
  ghost predicate AlignedRun(acts: seq<Action>)
  {
    acts == [] ||
    var before := acts[..|acts| - 1];
    var s := Run(before);
    AlignedRun(before) && (Enabled(s, acts[|acts| - 1]) ==> Aligned(s, acts[|acts| - 1]))
  }

  /** Acknowledged records were safe after each action of the run. */
  ghost predicate SafeThroughout(acts: seq<Action>)
  {
    AckedSafe(Run(acts)) && (acts == [] || SafeThroughout(acts[..|acts| - 1]))
  }

  lemma RotateAddsNothing(s: Log, rot: Rotation, x: Rec)
    requires Durable(Rotate(s, rot).0, x)
    ensures Durable(s, x)
  {
    var t := Rotate(s, rot).0;
    var q :| q in t.segs && t.segs[q].synced <= |t.segs[q].cells|
             && Line(x) in t.segs[q].cells[..t.segs[q].synced];
    assert q in s.segs && s.segs[q] == t.segs[q];
  }

  lemma UnalignedFinishLosesAck(s: Node)
    requires Core(s) && Novel(s) && Enabled(s, Finish(Synced)) && !Aligned(s, Finish(Synced))
    ensures !AckedSafe(Step(s, Finish(Synced)))
  {
    var buf := s.log.io.value.buf;
    var way := InFlight(s.log) + s.log.pending;
    assert forall i :: 0 <= i < |buf| ==> way[i] == buf[i] && buf[i] in way;
    var t := Step(s, Finish(Synced));
    var u := s.log.(segs := WriteActive(s.log, buf, Synced).0);
    SyncedWriteIsDurableIffAligned(s.log, buf);
    assert Durable(t.log, buf[0]) == Durable(u, buf[0]);
    assert InParts(t, buf[0]) == InParts(s, buf[0]);
    assert !Safe(t, buf[0]);
    assert t.log.batches[s.log.io.value.waiter] == Batch(buf, Some(true));
  }

  lemma UnalignedSealLosesAck(s: Node, rot: Rotation)
    requires Core(s) && Novel(s) && Enabled(s, SealLog(Synced, rot)) && !Aligned(s, SealLog(Synced, rot))
    ensures !AckedSafe(Step(s, SealLog(Synced, rot)))
  {
    var buf := s.log.pending;
    var way := InFlight(s.log) + s.log.pending;
    assert forall i :: 0 <= i < |buf| ==> way[i] == buf[i] && buf[i] in way;
    var t := Step(s, SealLog(Synced, rot));
    var u := s.log.(segs := WriteActive(s.log, buf, Synced).0);
    var v := SealPending(s.log, Synced).0;
    SyncedWriteIsDurableIffAligned(s.log, buf);
    assert Durable(v, buf[0]) == Durable(u, buf[0]);
    if Durable(t.log, buf[0]) { RotateAddsNothing(v, rot, buf[0]); }
    assert InParts(t, buf[0]) == InParts(s, buf[0]);
    assert !Safe(t, buf[0]);
    assert t.log.batches[s.log.cur.value] == Batch(buf, Some(true));
  }

  /** One step keeps acknowledged records safe if and only if it is aligned. */
  lemma StepSafeIffAligned(s: Node, a: Action)
    requires Core(s) && Novel(s) && AckedSafe(s) && Enabled(s, a)
    ensures AckedSafe(Step(s, a)) <==> Aligned(s, a)
  {
    if Aligned(s, a) {
      StepKeepsAcked(s, a);
    } else if a.Finish? {
      UnalignedFinishLosesAck(s);
    } else {
      UnalignedSealLosesAck(s, a.rot);
    }
  }

  /**
   Over every run of writes, group commits, flushes failing at any stage, discards,
   crashes and reopens: each batch reported durable is, at every moment, fsynced line by
   line in a segment or part of a committed part, if and only if no batch was
   ever synced behind a torn line.
   */
  lemma {:induction false} DurableThroughoutIffAligned(acts: seq<Action>)
    ensures SafeThroughout(acts) <==> AlignedRun(acts)
  {
    if acts != [] {
      var before := acts[..|acts| - 1];
      DurableThroughoutIffAligned(before);
      var s := Run(before);
      var a := acts[|acts| - 1];
      assert AlignedRun(before) ==> AckedSafe(s);
      if AckedSafe(s) && Enabled(s, a) { StepSafeIffAligned(s, a); }
    }
  }

  lemma RunExtends(acts: seq<Action>, a: Action)
    ensures var s := Run(acts);
            Run(acts + [a]) == if Enabled(s, a) then Step(s, a) else s
  {
    assert (acts + [a])[..|acts|] == acts;
  }

  /** The node after one write failed in the middle of its line and a second one was taken. */
  const AFTER_TORN_WRITE := Node(
    Log(map[1 := File([Torn(0, 1)], 0, true)], 1, true, [1], Some(1),
        [Batch([0], Some(false)), Batch([1], None)], None),
    [0, 1], 2, Idle, [], {})

  const WRITING := Node(
    Log(map[1 := EMPTY_FILE], 1, true, [], None, [Batch([0], None)], Some(Leader(0, Some(0), [0]))),
    [0], 1, Idle, [], {})

  const TORN := Node(
    Log(map[1 := File([Torn(0, 1)], 0, true)], 1, true, [], None, [Batch([0], Some(false))], None),
    [0], 1, Idle, [], {})

  lemma TornStep()
    ensures Shape(WRITING.log) && Step(WRITING, Finish(WriteFailed(0, 1))) == TORN
  {
    assert forall b: nat :: Unresolved(WRITING.log, b) ==> b == 0;
    var f := Land(EMPTY_FILE, [0], 0, 1);
    assert f.cells == [] + Written(false, []) + [Torn(0, 1)];
    assert f == File([Torn(0, 1)], 0, true);
    assert [Batch([0], None)][0 := Batch([0], Some(false))] == [Batch([0], Some(false))];
  }

  lemma NextWriteStep()
    ensures Shape(TORN.log) && Step(TORN, Write(1)) == AFTER_TORN_WRITE
  {
    assert forall b: nat :: !Unresolved(TORN.log, b);
    assert Fresh(1, 1) == [1];
    var e := Enqueue(TORN.log, [1]);
    assert e.pending == [1] && e.batches == AFTER_TORN_WRITE.log.batches;
    assert TORN.mem + [1] == [0, 1];
  }

  lemma FirstWriteSteps() returns (acts: seq<Action>)
    ensures acts == [Write(1), Lead(0)] && Run(acts) == WRITING
  {
    RunExtends([], Write(1));
    RunExtends([] + [Write(1)], Lead(0));
    acts := [] + [Write(1)] + [Lead(0)];
    assert Fresh(0, 1) == [0];
    var e := Enqueue(FRESH, [0]);
    assert e.pending == [0] && e.batches == [Batch([0], None)];
    assert START.mem + [0] == [0];
    assert Run([]) == START;
    assert TakePending(e, 0) == WRITING.log;
  }

  lemma TornWriteHappens() returns (acts: seq<Action>)
    ensures Run(acts) == AFTER_TORN_WRITE
  {
    var before := FirstWriteSteps();
    TornStep();
    RunExtends(before, Finish(WriteFailed(0, 1)));
    var torn := before + [Finish(WriteFailed(0, 1))];
    NextWriteStep();
    RunExtends(torn, Write(1));
    acts := torn + [Write(1)];
  }

  /** A run in which record 1 is acknowledged and yet neither on disk nor in a part. */
  lemma TornLineLosesAcknowledged() returns (acts: seq<Action>)
    ensures 1 in Run(acts).acked && !Safe(Run(acts), 1)
  {
    var before := TornWriteHappens();
    var s := AFTER_TORN_WRITE;
    RunExtends(before, Lead(1));
    RunExtends(before + [Lead(1)], Finish(Synced));
    acts := before + [Lead(1)] + [Finish(Synced)];
    var u := Step(s, Lead(1));
    assert u.log.io == Some(Leader(1, Some(1), [1]));
    var t := Step(u, Finish(Synced));
    assert t.log.segs[1].cells == [Torn(0, 1), Glued(1)];
    assert !Durable(t.log, 1);
  }
}
