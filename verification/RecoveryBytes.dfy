/** Recovery of a whole log, on bytes, in every state a run can reach. */
module RecoveryBytes {
  import opened Prelude
  import opened SegmentLog
  import opened LineScan
  import LineCaps
  import opened SegmentBytes
  import opened Durability

  // ---------- the files of a run are tidy ----------

  lemma LandKeepsTidy(f: File, lines: seq<Rec>, k: nat, tear: nat)
    requires TidyFile(f) && k <= |lines| && (tear > 0 ==> k < |lines|)
    ensures TidyFile(Land(f, lines, k, tear))
  {
    var g := Land(f, lines, k, tear);
    forall i: nat | i < |g.cells| ensures TidyAt(g.cells, i) {
      if i < |f.cells| { assert TidyAt(f.cells, i); }
    }
  }

  lemma TruncateKeepsTidy(f: File, c: Cut)
    requires TidyFile(f) && f.synced <= c.len <= |f.cells|
    ensures TidyFile(Truncate(f, c))
  {
    var g := Truncate(f, c);
    forall i: nat | i < |g.cells| ensures TidyAt(g.cells, i) { assert TidyAt(f.cells, i); }
  }

  ghost predicate TidyFiles(segs: map<nat, File>) { forall q :: q in segs ==> TidyFile(segs[q]) }

  lemma WriteKeepsTidy(s: Log, lines: seq<Rec>, r: Io)
    requires s.activeSeq in s.segs && TidyFiles(s.segs)
    ensures TidyFiles(WriteActive(s, lines, r).0)
  {
    hide Land, TidyFile;
    var f := s.segs[s.activeSeq];
    LandKeepsTidy(f, lines, |lines|, 0);
    SyncKeepsTidy(Land(f, lines, |lines|, 0));
    if r.WriteFailed? { LandKeepsTidy(f, lines, Min(r.k, |lines|), if r.k < |lines| then r.tear else 0); }
  }

  lemma SyncKeepsTidy(f: File)
    requires TidyFile(f)
    ensures TidyFile(Fsync(f))
  {}

  lemma CrashKeepsTidy(s: Log, cuts: map<nat, Cut>)
    requires Survives(s, cuts) && TidyFiles(s.segs)
    ensures TidyFiles(Reopen(s, cuts).segs)
  {
    hide Truncate, TidyFile;
    forall q | q in s.segs { TruncateKeepsTidy(s.segs[q], cuts[q]); }
  }

  lemma StepKeepsTidy(s: Node, a: Action)
    requires Shape(s.log) && TidyFiles(s.log.segs) && Enabled(s, a)
    ensures TidyFiles(Step(s, a).log.segs)
  {
    assert TidyFile(EMPTY_FILE);
    if a.Finish? { WriteKeepsTidy(s.log, s.log.io.value.buf, a.r); }
    if a.SealLog? { WriteKeepsTidy(s.log, s.log.pending, a.r); }
    if a.Crash? { CrashKeepsTidy(s.log, a.cuts); }
    hide TidyFile, WriteActive;
  }

  lemma {:induction false} RunIsTidy(acts: seq<Action>)
    ensures TidyFiles(Run(acts).log.segs)
  {
    if acts == [] {
      assert TidyFile(EMPTY_FILE);
    } else {
      var s := Run(acts[..|acts| - 1]);
      RunIsTidy(acts[..|acts| - 1]);
      if Enabled(s, acts[|acts| - 1]) { StepKeepsTidy(s, acts[|acts| - 1]); }
    }
  }

  // ---------- reading them back ----------

  /** The lines that decode of segments 0 .. n-1, or None if the scanner gives up on one of them. */
  function ReadSegments(c: Coding, segs: map<nat, File>, n: nat): Option<seq<seq<Byte>>>
  {
    if n == 0 then Some([])
    else
      var before := ReadSegments(c, segs, n - 1);
      if before.None? || n - 1 !in segs then before
      else
        var scan := Scan(Render(c, segs[n - 1].cells));
        if scan.None? then None else Some(before.value + Readable(c, scan.value))
  }

  ghost predicate AllFit(c: Coding, segs: map<nat, File>, n: nat)
  {
    forall q :: q in segs && q < n ==> !LineCaps.Overlong(Lens(c), segs[q].cells)
  }

  lemma ReadOne(c: Coding, f: File)
    requires Sound(c) && TidyFile(f)
    ensures var scan := Scan(Render(c, f.cells));
            if LineCaps.Overlong(Lens(c), f.cells) then scan == None
            else scan.Some? && Readable(c, scan.value) == Texts(c, Recs(f.cells))
  {
    ScanFailsIffOverlong(c, f.cells);
    ReadableFile(c, f.cells);
  }

  lemma TextsAppend(c: Coding, a: seq<Rec>, b: seq<Rec>)
    ensures Texts(c, a + b) == Texts(c, a) + Texts(c, b)
  {}

  lemma {:induction false} ReadSegmentsIs(c: Coding, segs: map<nat, File>, n: nat)
    requires Sound(c) && TidyFiles(segs)
    ensures ReadSegments(c, segs, n) == if AllFit(c, segs, n) then Some(Texts(c, Replay(segs, n))) else None
  {
    hide Sound, TidyFile, Scan, Render, Readable, Recs, Texts, LineCaps.Overlong;
    if n > 0 {
      ReadSegmentsIs(c, segs, n - 1);
      if n - 1 in segs {
        ReadOne(c, segs[n - 1]);
        TextsAppend(c, Replay(segs, n - 1), Recs(segs[n - 1].cells));
        assert AllFit(c, segs, n) <==> AllFit(c, segs, n - 1) && !LineCaps.Overlong(Lens(c), segs[n - 1].cells);
      } else {
        assert Replay(segs, n) == Replay(segs, n - 1) + [] == Replay(segs, n - 1);
        assert AllFit(c, segs, n) <==> AllFit(c, segs, n - 1);
      }
    }
  }

  lemma LogReadsBytes(c: Coding, s: Log)
    requires Sound(c) && Shape(s) && TidyFiles(s.segs)
    ensures var rs := LineCaps.Recover(Lens(c), s);
            ReadSegments(c, s.segs, s.activeSeq + 2) == if rs.Some? then Some(Texts(c, rs.value)) else None
  {
    hide Sound, TidyFile, TidyFiles, Texts, ReadSegments, Replay, LineCaps.Overlong, Recs, Render;
    assert forall q :: q in s.segs ==> q < s.activeSeq + 2;
    hide Shape;
    ReadSegmentsIs(c, s.segs, s.activeSeq + 2);
    assert AllFit(c, s.segs, s.activeSeq + 2) <==> LineCaps.Opens(Lens(c), s);
  }

  /**
   In every state of every run, reading the bytes of the segments in order gives the records
   that the machine recovers, and fails exactly when the machine's recovery does.
   */
  lemma RecoveryReadsBytes(c: Coding, acts: seq<Action>)
    requires Sound(c)
    ensures var s := Run(acts).log;
            var rs := LineCaps.Recover(Lens(c), s);
            ReadSegments(c, s.segs, s.activeSeq + 2) == if rs.Some? then Some(Texts(c, rs.value)) else None
  {
    hide Run, Sound, TidyFile, TidyFiles, Texts, ReadSegments, Replay, LineCaps.Overlong, Recs, Render, Shape, Novel, Mirrored, SealedCovered;
    RunIsTidy(acts);
    LogReadsBytes(c, Run(acts).log);
  }
}
