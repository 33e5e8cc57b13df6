/** What opening a node after a crash gives back of the batches it reported durable. */
module CrashRecovery {
  // A `Crash` step of the machine is a crash after which the log could be opened; this module
  // says when it can.

  import opened Prelude
  import opened SegmentLog
  import opened LineCaps
  import opened Durability
  import LineScan

  /** Wait returned nil for the record, or is about to. */
  ghost predicate Promised(s: Node, r: Rec)
  {
    || r in s.acked
    || exists b :: 0 <= b < |s.log.batches| && s.log.batches[b].res == Some(true) && r in s.log.batches[b].lines
  }

  /** The record is in a committed part, or opening the log after the crash reads it. */
  ghost predicate ReadBack(size: Sizes, s: Node, cuts: map<nat, Cut>, r: Rec)
    requires Survives(s.log, cuts)
  {
    || InParts(s, r)
    || (var read := Recover(size, Reopen(s.log, cuts)); read.Some? && r in read.value)
  }

  /** Whatever a crash leaves of the files, every promised record is read back. */
  ghost predicate CrashProof(size: Sizes, s: Node)
  {
    forall cuts, r :: Survives(s.log, cuts) && Promised(s, r) ==> ReadBack(size, s, cuts, r)
  }

  /** The log can be opened, or does not matter. */
  ghost predicate OpensOrEmptied(size: Sizes, s: Node)
  {
    Opens(size, s.log) || forall r :: Promised(s, r) ==> InParts(s, r)
  }

  lemma SafePromises(s: Node)
    ensures AckedSafe(s) <==> forall r :: Promised(s, r) ==> Safe(s, r)
  {
    if forall r :: Promised(s, r) ==> Safe(s, r) {
      forall b | 0 <= b < |s.log.batches| && s.log.batches[b].res == Some(true) ensures AllSafe(s, s.log.batches[b].lines) {
        forall r | r in s.log.batches[b].lines ensures Safe(s, r) { assert Promised(s, r); }
      }
      forall r | r in s.acked ensures Safe(s, r) { assert Promised(s, r); }
    }
  }

  lemma DurableIsRead(s: Log, cuts: map<nat, Cut>, r: Rec)
    requires Shape(s) && Survives(s, cuts) && Durable(s, r)
    ensures r in Recovered(Reopen(s, cuts))
  {
    var t := Reopen(s, cuts);
    var q :| q in s.segs && Line(r) in s.segs[q].cells[..s.segs[q].synced];
    var i :| 0 <= i < s.segs[q].synced && s.segs[q].cells[i] == Line(r);
    assert t.segs[q].cells[i] == Line(r);
    ReopenKeepsShape(s, cuts);
    assert InWal(t, r);
    RecoveredMember(t, r);
  }

  /** The crash that takes everything that was not synced. */
  function Barest(s: Log): map<nat, Cut> { map q | q in s.segs :: Cut(s.segs[q].synced, 0) }

  lemma BarestReadsDurable(s: Log, r: Rec)
    requires Shape(s) && !Durable(s, r)
    ensures Survives(s, Barest(s)) && r !in Recovered(Reopen(s, Barest(s)))
  {
    var t := Reopen(s, Barest(s));
    ReopenKeepsShape(s, Barest(s));
    RecoveredMember(t, r);
    forall q | q in t.segs ensures Line(r) !in t.segs[q].cells {
      var f := s.segs[q];
      assert Line(r) !in f.cells[..f.synced];
      assert t.segs[q].cells == f.cells[..f.synced];
    }
  }

  /** After one given crash: the promised records are read back if and only if the log still opens, or holds none that matter. */
  lemma AcknowledgedSurvivesCrash(size: Sizes, s: Node, cuts: map<nat, Cut>)
    requires Shape(s.log) && AckedSafe(s) && Survives(s.log, cuts)
    ensures (forall r :: Promised(s, r) ==> ReadBack(size, s, cuts, r)) <==>
            Opens(size, Reopen(s.log, cuts)) || forall r :: Promised(s, r) ==> InParts(s, r)
  {
    SafePromises(s);
    if Opens(size, Reopen(s.log, cuts)) {
      forall r | Promised(s, r) ensures ReadBack(size, s, cuts, r) {
        if Durable(s.log, r) { DurableIsRead(s.log, cuts, r); }
      }
    }
  }

  lemma UnsafeIsLost(size: Sizes, s: Node, r: Rec)
    requires Shape(s.log) && Promised(s, r) && !Safe(s, r)
    ensures !CrashProof(size, s)
  {
    BarestReadsDurable(s.log, r);
    assert !ReadBack(size, s, Barest(s.log), r);
  }

  /** After every crash: exactly when the promised records are synced or in parts, and no line that matters is too long. */
  lemma CrashProofIff(size: Sizes, s: Node)
    requires Shape(s.log)
    ensures CrashProof(size, s) <==> AckedSafe(s) && OpensOrEmptied(size, s)
  {
    hide Shape, Promised, AckedSafe, Safe, Opens, Reopen, Survives, ReadBack, InParts;
    SafePromises(s);
    OpensAfterEveryCrash(size, s.log);
    if AckedSafe(s) {
      forall cuts | Survives(s.log, cuts) { AcknowledgedSurvivesCrash(size, s, cuts); }
    } else {
      var r :| Promised(s, r) && !Safe(s, r);
      UnsafeIsLost(size, s, r);
    }
  }

  ghost predicate CrashProofThroughout(size: Sizes, acts: seq<Action>)
  {
    (acts == [] || CrashProofThroughout(size, acts[..|acts| - 1])) && CrashProof(size, Run(acts))
  }

  ghost predicate OpensThroughout(size: Sizes, acts: seq<Action>)
  {
    (acts == [] || OpensThroughout(size, acts[..|acts| - 1])) && OpensOrEmptied(size, Run(acts))
  }

  /**
   Over every run of writes, group commits, flushes failing at any stage, discards, crashes
   and reopens: a crash at any moment leaves every batch reported durable readable, if and
   only if no batch was ever synced behind a torn line and no segment ever held a line as
   long as the scanner's buffer while it was needed.
   */
  lemma {:induction false} CrashProofThroughoutIff(size: Sizes, acts: seq<Action>)
    ensures CrashProofThroughout(size, acts) <==> AlignedRun(acts) && OpensThroughout(size, acts)
  {
    CrashProofIff(size, Run(acts));
    DurableThroughoutIffAligned(acts);
    if acts != [] {
      CrashProofThroughoutIff(size, acts[..|acts| - 1]);
      DurableThroughoutIffAligned(acts[..|acts| - 1]);
    }
  }

  // ---------- runs without torn lines ----------

  predicate UntornIo(r: Io) { r.WriteFailed? ==> r.tear == 0 }

  predicate Untorn(a: Action)
  {
    match a
    case Finish(r) => UntornIo(r)
    case SealLog(r, _) => UntornIo(r)
    case Crash(cuts) => forall q :: q in cuts ==> cuts[q].tear == 0
    case _ => true
  }

  ghost predicate WholeFile(f: File) { !f.ragged && forall i :: 0 <= i < |f.cells| ==> f.cells[i].Line? }

  ghost predicate WholeFiles(segs: map<nat, File>) { forall q :: q in segs ==> WholeFile(segs[q]) }

  lemma WriteKeepsWhole(s: Log, lines: seq<Rec>, r: Io)
    requires s.activeSeq in s.segs && WholeFiles(s.segs) && UntornIo(r)
    ensures WholeFiles(WriteActive(s, lines, r).0)
  {
    var segs := WriteActive(s, lines, r).0;
    forall q | q in segs ensures WholeFile(segs[q]) {
      assert WholeFile(s.segs[q]);
    }
  }

  lemma StepKeepsWhole(s: Node, a: Action)
    requires Shape(s.log) && WholeFiles(s.log.segs) && Enabled(s, a) && Untorn(a)
    ensures WholeFiles(Step(s, a).log.segs) && Aligned(s, a)
  {
    var t := Step(s, a);
    if a.Finish? { WriteKeepsWhole(s.log, s.log.io.value.buf, a.r); }
    if a.SealLog? { WriteKeepsWhole(s.log, s.log.pending, a.r); }
    assert WholeFile(EMPTY_FILE);
    forall q | q in t.log.segs ensures WholeFile(t.log.segs[q]) {
      if a.Crash? { assert WholeFile(s.log.segs[q]); }
    }
  }

  lemma {:induction false} UntornRunIsWhole(acts: seq<Action>)
    requires forall i :: 0 <= i < |acts| ==> Untorn(acts[i])
    ensures WholeFiles(Run(acts).log.segs) && AlignedRun(acts)
  {
    if acts != [] {
      var before := acts[..|acts| - 1];
      UntornRunIsWhole(before);
      var a := acts[|acts| - 1];
      if Enabled(Run(before), a) { StepKeepsWhole(Run(before), a); }
    }
  }

  /** While no write is cut inside a line, records shorter than the buffer survive every crash. */
  lemma {:induction false} ShortRecordsSurvive(size: Sizes, acts: seq<Action>)
    requires forall i :: 0 <= i < |acts| ==> Untorn(acts[i])
    requires forall r :: size(r) < LineScan.MAX_LINE
    ensures CrashProofThroughout(size, acts)
  {
    UntornRunIsWhole(acts);
    WholeLogOpens(size, Run(acts).log);
    CrashProofThroughoutIff(size, acts);
    if acts != [] {
      ShortRecordsSurvive(size, acts[..|acts| - 1]);
      CrashProofThroughoutIff(size, acts[..|acts| - 1]);
    }
  }

  /** The node after one write that was synced. */
  const ONE_SYNCED := Node(
    Log(map[1 := File([Line(0)], 1, false)], 1, true, [], None, [Batch([0], Some(true))], None),
    [0], 1, Idle, [], {0})

  lemma SyncStep()
    ensures Step(WRITING, Finish(Synced)) == ONE_SYNCED
  {
    var f := Fsync(Land(EMPTY_FILE, [0], 1, 0));
    assert [0][..1] == [0] && f.cells == [] + Written(false, [0]) + [];
    assert f == File([Line(0)], 1, false);
    assert [Batch([0], None)][0 := Batch([0], Some(true))] == [Batch([0], Some(true))];
  }

  lemma FirstWriteAligned()
    ensures AlignedRun([Write(1), Lead(0)])
  {
    var acts := [Write(1), Lead(0)];
    assert acts[..1] == [Write(1)] && [Write(1)][..0] == [];
    assert AlignedRun([Write(1)]);
  }

  lemma LongLineBlocks(size: Sizes, cuts: map<nat, Cut>)
    requires size(0) >= LineScan.MAX_LINE && Survives(ONE_SYNCED.log, cuts)
    ensures !ReadBack(size, ONE_SYNCED, cuts, 0)
  {
    var cells := Reopen(ONE_SYNCED.log, cuts).segs[1].cells;
    assert cells == [Line(0)] && cells[..0] == [];
    assert Overlong(size, cells);
  }

  /** A run in which record 0 is synced and acknowledged, and no crash leaves a log that opens. */
  lemma LongLineLosesAcknowledged(size: Sizes) returns (acts: seq<Action>)
    requires size(0) >= LineScan.MAX_LINE
    ensures AlignedRun(acts) && 0 in Run(acts).acked
    ensures forall cuts :: Survives(Run(acts).log, cuts) ==> !ReadBack(size, Run(acts), cuts, 0)
  {
    hide ReadBack, Survives, Step, Shape, Core, Novel;
    var before := FirstWriteSteps();
    FirstWriteAligned();
    SyncStep();
    RunExtends(before, Finish(Synced));
    acts := before + [Finish(Synced)];
    assert acts[..|before|] == before;
    assert Run(acts) == ONE_SYNCED;
    forall cuts | Survives(ONE_SYNCED.log, cuts) { LongLineBlocks(size, cuts); }
  }
}
