/** The write path as objects. */
module WritePath {
  // The log and the write path as the objects of the program, refining the step machines.

  import opened Prelude
  import opened SegmentLog
  import opened Durability
  import LineCaps

  lemma {:induction false} HasLeast(s: set<nat>) returns (m: nat)
    requires s != {}
    ensures m in s && forall x :: x in s ==> m <= x
  {
    var y :| y in s;
    m := y;
    if s != {y} {
      var k := HasLeast(s - {y});
      m := if k < y then k else y;
      forall x | x in s ensures m <= x { assert x == y || x in s - {y}; }
    }
  }

  /** The segments a discard removes when removing segment `broken` fails. */
  function Removed(s: Log, upto: nat, broken: nat): set<nat>
  {
    set q | q in Below(s, upto) && (broken !in Below(s, upto) || q < broken)
  }

  ghost predicate IsHighest(files: map<nat, File>, q: nat) { q in files && forall x :: x in files ==> x <= q }

  /** Opening a directory: the highest segment is appended to again; an empty directory gets segment 1. */
  ghost predicate IsOpened(s: Log, files: map<nat, File>)
  {
    && s == Log(s.segs, s.activeSeq, true, [], None, [], None)
    && (if files == map[] then s == FRESH else s.segs == files && IsHighest(files, s.activeSeq))
  }

  /** A crash followed by opening is the reopening step of the machine. */
  lemma ReopenIsOpened(s: Log, cuts: map<nat, Cut>)
    requires Shape(s) && Survives(s, cuts)
    ensures IsOpened(Reopen(s, cuts), Reopen(s, cuts).segs)
  {
    assert s.activeSeq in Reopen(s, cuts).segs;
  }

  /** What is enqueued by others while a leader writes. */
  ghost function EnqueueAll(s: Log, bufs: seq<seq<Rec>>): (t: Log)
    requires Shape(s)
    ensures Shape(t) && t.io == s.io && |t.batches| >= |s.batches| && t.segs == s.segs && t.activeSeq == s.activeSeq && t.open == s.open
    ensures forall b :: 0 <= b < |s.batches| && s.cur != Some(b) ==> t.batches[b] == s.batches[b]
  {
    if bufs == [] then s
    else
      var u := EnqueueAll(s, bufs[..|bufs| - 1]);
      EnqueueKeepsShape(u, bufs[|bufs| - 1]);
      SegmentLog.Enqueue(u, bufs[|bufs| - 1])
  }

  /** The segments among `qs` that a discard removes. */
  ghost predicate Gone(s: Log, upto: nat, qs: seq<nat>, gone: set<nat>)
  {
    forall q :: q in gone <==> q in qs && q <= upto && q != s.activeSeq
  }

  /** Segments are removed in order, so those before the one that cannot be removed are gone. */
  lemma StoppedAt(s: Log, upto: nat, broken: nat, qs: seq<nat>, i: nat, gone: set<nat>)
    requires i < |qs| && qs[i] == broken && (forall a, b :: 0 <= a < b < |qs| ==> qs[a] < qs[b]) && forall q :: q in qs <==> q in s.segs
    requires broken <= upto && broken != s.activeSeq && Gone(s, upto, qs[..i], gone)
    ensures broken in Below(s, upto) && gone == Removed(s, upto, broken)
  {
    assert broken in qs;
    forall q | q in Below(s, upto) ensures q in gone <==> q < broken {
      var k :| 0 <= k < |qs| && qs[k] == q;
      if k < i { assert q in qs[..i]; }
    }
    forall q | q in gone ensures q in Below(s, upto) { assert q in qs; }
  }

  /** Only sealed segments up to the number are gone, and once all are listed, all of those. */
  lemma WhatIsLeft(s: Log, upto: nat, qs: seq<nat>, gone: set<nat>)
    requires Gone(s, upto, qs, gone)
    ensures forall q :: q in gone ==> q <= upto && q != s.activeSeq
    ensures (forall q :: q in s.segs ==> q in qs) ==> forall q :: q in (s.segs - gone) <==> q in s.segs && (q > upto || q == s.activeSeq)
  {}

  lemma AllRemoved(s: Log, upto: nat, broken: nat, qs: seq<nat>, gone: set<nat>)
    requires (forall q :: q in qs <==> q in s.segs) && Gone(s, upto, qs, gone) && broken !in gone
    ensures gone == Below(s, upto) == Removed(s, upto, broken)
  {}

  class SegLog {
    var segs: map<nat, File>
    var activeSeq: nat
    var open: bool
    var pending: seq<Rec>
    var cur: Option<nat>
    var batches: seq<Batch>
    var io: Option<Leader>

    ghost function View(): Log
      reads this
    {
      Log(segs, activeSeq, open, pending, cur, batches, io)
    }

    /** Opens the segments on disk. */
    constructor (files: map<nat, File>)
      ensures IsOpened(View(), files)
    {
      segs, activeSeq, open := if files == map[] then map[1 := EMPTY_FILE] else files, 1, true;
      pending, cur, batches, io := [], None, [], None;
      new;
      var qs := ListSegments();
      if files != map[] {
        assert qs != [] by { var q :| q in files; assert q in qs; }
        activeSeq := qs[|qs| - 1];
        assert qs[|qs| - 1] in qs;
        forall x | x in files ensures x <= activeSeq { var i :| 0 <= i < |qs| && qs[i] == x; }
      }
    }

    method Enqueue(buf: seq<Rec>) returns (c: nat)
      requires Shape(View())
      modifies this
      ensures View() == SegmentLog.Enqueue(old(View()), buf) && Shape(View())
      ensures cur == Some(c)
    {
      EnqueueKeepsShape(View(), buf);
      if cur.None? {
        cur := Some(|batches|);
        batches := batches + [Batch([], None)];
      }
      c := cur.value;
      pending := pending + buf;
      batches := batches[c := batches[c].(lines := batches[c].lines + buf)];
    }

    /** Writes and syncs `buf` in the active segment. */
    method WriteBatch(buf: seq<Rec>, r: Io) returns (ok: bool)
      requires activeSeq in segs
      modifies this`segs
      ensures (segs, ok) == WriteActive(old(View()), buf, r)
    {
      ok := open && r.Synced?;
      if open {
        var f := segs[activeSeq];
        match r {
          case Synced => segs := segs[activeSeq := Fsync(Land(f, buf, |buf|, 0))];
          case SyncFailed => segs := segs[activeSeq := Land(f, buf, |buf|, 0)];
          case WriteFailed(k, tear) =>
            segs := segs[activeSeq := Land(f, buf, Min(k, |buf|), if k < |buf| then tear else 0)];
        }
      }
    }

    /** Other writers enqueue, one after the other. */
    method EnqueueEach(others: seq<seq<Rec>>)
      requires Shape(View())
      modifies this
      ensures View() == EnqueueAll(old(View()), others)
    {
      hide Shape, SegmentLog.Enqueue;
      ghost var taken := View();
      var i := 0;
      while i < |others|
        invariant 0 <= i <= |others| && Shape(View()) && View() == EnqueueAll(taken, others[..i])
      {
        assert others[..i + 1][..i] == others[..i];
        var mine := Enqueue(others[i]);
        i := i + 1;
      }
      assert others[..i] == others;
    }

    /**
     Waits for commit `c`, leading its batch if nobody did; others may enqueue while the
     leader writes. The answer is the result of `c` itself: nil is never returned for a
     batch that was not written.
     */
    method CommitWait(c: nat, r: Io, others: seq<seq<Rec>>) returns (ok: bool)
      requires Shape(View()) && io.None? && c < |batches|
      modifies this
      ensures Shape(View()) && io.None? && c < |batches|
      ensures batches[c].res == Some(ok)
      ensures old(batches[c].res.Some?) ==> View() == old(View())
      ensures old(batches[c].res.None?) ==>
                && Shape(TakePending(old(View()), c)) && LeaderReady(EnqueueAll(TakePending(old(View()), c), others))
                && View() == FinishFlush(EnqueueAll(TakePending(old(View()), c), others), r)
    {
      hide WriteActive, EnqueueAll;
      if batches[c].res.Some? {
        ok := batches[c].res.value;
        return;
      }
      TakePendingKeepsShape(View(), c);
      var batch, buf := cur, pending;
      io := Some(Leader(c, batch, buf));
      pending, cur := [], None;
      EnqueueEach(others);
      FinishFlushKeepsShape(View(), r);
      ok := WriteBatch(buf, r);
      var b := batch.value;
      batches := batches[b := batches[b].(res := Some(ok))];
      io := None;
    }

    method SealSegment(r: Io, rot: Rotation) returns (sealed: Option<nat>)
      requires Shape(View()) && io.None?
      modifies this
      ensures (View(), sealed) == Seal(old(View()), r, rot) && Shape(View())
    {
      SealKeepsShape(View(), r, rot);
      if cur.Some? {
        var ok := WriteBatch(pending, r);
        batches := batches[cur.value := batches[cur.value].(res := Some(ok))];
        pending, cur := [], None;
        if !ok { return None; }
      }
      if !open { return None; }
      match rot {
        case CloseFailed =>
          open, sealed := false, None;
        case OpenFailed(reopened) =>
          open, sealed := reopened, None;
        case DirSyncFailed =>
          open, sealed := false, None;
          if activeSeq + 1 !in segs { segs := segs[activeSeq + 1 := EMPTY_FILE]; }
        case Rotated =>
          sealed := Some(activeSeq);
          if activeSeq + 1 !in segs { segs := segs[activeSeq + 1 := EMPTY_FILE]; }
          activeSeq := activeSeq + 1;
      }
    }

    /** Segment numbers on disk, ascending, each once. */
    method ListSegments() returns (qs: seq<nat>)
      ensures forall i, j :: 0 <= i < j < |qs| ==> qs[i] < qs[j]
      ensures forall q :: q in qs <==> q in segs
    {
      qs := [];
      var rest := segs.Keys;
      while rest != {}
        invariant rest <= segs.Keys
        invariant forall q :: q in qs <==> q in segs && q !in rest
        invariant forall i, j :: 0 <= i < j < |qs| ==> qs[i] < qs[j]
        invariant forall i, q :: 0 <= i < |qs| && q in rest ==> qs[i] < q
        decreases rest
      {
        ghost var least := HasLeast(rest);
        var m :| m in rest && forall x :: x in rest ==> m <= x;
        qs := qs + [m];
        rest := rest - {m};
      }
    }

    /** Removes sealed segments oldest first; removing segment `broken` fails, and so may syncing the directory afterwards. */
    method DiscardUpTo(upto: nat, broken: nat, dirSynced: bool) returns (ok: bool)
      requires Shape(View())
      modifies this`segs
      ensures var low := Below(old(View()), upto);
              && (ok <==> broken !in low && (low == {} || dirSynced))
              && View() == Discard(old(View()), Removed(old(View()), upto, broken))
      ensures ok ==> forall q :: q in segs <==> q in old(segs) && (q > upto || q == activeSeq)
      ensures !ok ==> forall q :: q in old(segs) && q !in segs ==> q <= upto && q != activeSeq
    {
      hide Shape, Below, Removed, Gone;
      var qs := ListSegments();
      var removed, at;
      ghost var gone;
      removed, at, gone := RemoveListed(qs, upto, broken);
      ok := at == |qs| && (!removed || dirSynced);
      if at < |qs| {
        StoppedAt(old(View()), upto, broken, qs, at, gone);
      } else {
        assert qs[..at] == qs;
        AllRemoved(old(View()), upto, broken, qs, gone);
      }
      WhatIsLeft(old(View()), upto, qs[..at], gone);
    }

    /** Unlinks the listed segments in order, as far as the one that cannot be removed. */
    method RemoveListed(qs: seq<nat>, upto: nat, broken: nat) returns (removed: bool, at: nat, ghost gone: set<nat>)
      modifies this`segs
      ensures at <= |qs| && segs == old(segs) - gone && (removed <==> gone != {})
      ensures Gone(old(View()), upto, qs[..at], gone) && broken !in gone
      ensures at < |qs| ==> qs[at] == broken && broken <= upto && broken != activeSeq
    {
      removed, at, gone := false, 0, {};
      while at < |qs|
        invariant 0 <= at <= |qs| && segs == old(segs) - gone && (removed <==> gone != {})
        invariant Gone(old(View()), upto, qs[..at], gone) && broken !in gone
      {
        var q := qs[at];
        assert qs[..at + 1] == qs[..at] + [q];
        if q <= upto && q != activeSeq {
          if q == broken { return; }
          segs := segs - {q};
          gone := gone + {q};
          removed := true;
        }
        at := at + 1;
      }
    }

    /** What recovery reads: the decodable lines of every segment, oldest segment first; nothing at all if some segment cannot be opened or has a line that does not fit. */
    method Recover(size: LineCaps.Sizes, unreadable: set<nat>) returns (r: Option<seq<Rec>>)
      requires Shape(View())
      ensures r == if unreadable !! segs.Keys then LineCaps.Recover(size, View()) else None
    {
      hide LineCaps.Overlong, Recs, Replay;
      var qs := ListSegments();
      assert forall q :: q in segs ==> q < activeSeq + 2;
      hide Shape;
      var rs := [];
      var i := 0;
      ghost var done := 0;
      ReplayEmpty(segs, 0);
      while i < |qs|
        invariant 0 <= i <= |qs|
        invariant 0 <= done <= activeSeq + 2
        invariant forall q :: q in segs ==> (q < done <==> q in qs[..i])
        invariant forall q :: q in qs[..i] ==> Scans(size, segs, unreadable, q)
        invariant rs == Replay(segs, done)
      {
        var q := qs[i];
        assert q in qs && qs[..i + 1] == qs[..i] + [q];
        if !Scans(size, segs, unreadable, q) { return None; }
        assert q !in qs[..i] && done <= q;
        ReplayNext(segs, done, q);
        rs := rs + Recs(segs[q].cells);
        done := q + 1;
        i := i + 1;
      }
      assert qs[..i] == qs;
      assert forall q :: q in segs ==> q in qs && Scans(size, segs, unreadable, q);
      ReplaySkips(segs, done, activeSeq + 2);
      r := Some(rs);
    }
  }

  /** The segment opens, and each of its lines fits the scanner's buffer. */
  predicate Scans(size: LineCaps.Sizes, segs: map<nat, File>, unreadable: set<nat>, q: nat)
  {
    q in segs && q !in unreadable && !LineCaps.Overlong(size, segs[q].cells)
  }

  lemma ReplayNext(segs: map<nat, File>, m: nat, n: nat)
    requires m <= n && n in segs && forall q :: m <= q < n ==> q !in segs
    ensures Replay(segs, n + 1) == Replay(segs, m) + Recs(segs[n].cells)
  {
    ReplaySkips(segs, m, n);
  }

  lemma {:induction false} ReplaySkips(segs: map<nat, File>, m: nat, n: nat)
    requires m <= n && forall q :: m <= q < n ==> q !in segs
    ensures Replay(segs, n) == Replay(segs, m)
  {
    if m < n { ReplaySkips(segs, m, n - 1); }
  }

  // ---------- the node ----------

  /** How far persisting the snapshot got. */
  datatype Persist = PartFails | MetaFails | AppendFails | Persisted

  datatype Faults = Faults(r: Io, rot: Rotation, persist: Persist, broken: nat, dirSynced: bool)

  /** A write that leads its own batch, as the steps of the machine it takes. */
  ghost function WriteSteps(s: Node, n: nat, r: Io): Node
    requires Shape(s.log) && s.flush.Idle? && s.log.io.None?
  {
    EnqueueKeepsShape(s.log, Fresh(s.next, n));
    var s1 := Step(s, Action.Write(n));
    var c := s1.log.cur.value;
    TakePendingKeepsShape(s1.log, c);
    Step(Step(s1, Action.Lead(c)), Action.Finish(r))
  }

  /** The effect of a write that leads its own batch, without the steps it goes through. */
  lemma WriteStepsAre(s: Node, n: nat, r: Io)
    requires Shape(s.log) && s.flush.Idle? && s.log.io.None?
    ensures var e := Enqueue(s.log, Fresh(s.next, n));
            && Shape(e) && e.cur.Some? && e.io.None? && Unresolved(e, e.cur.value) && e.open == s.log.open
            && LeaderReady(TakePending(e, e.cur.value)) && LeaderReady(EnqueueAll(TakePending(e, e.cur.value), []))
            && WriteSteps(s, n, r) == s.(log := FinishFlush(TakePending(e, e.cur.value), r), mem := s.mem + Fresh(s.next, n),
                                         next := s.next + n, acked := WriteSteps(s, n, r).acked)
            && (FinishFlush(TakePending(e, e.cur.value), r).batches[e.cur.value].res == Some(true) <==> s.log.open && r.Synced?)
  {
    hide Land, Fsync;
    var buf := Fresh(s.next, n);
    EnqueueKeepsShape(s.log, buf);
    var e := Enqueue(s.log, buf);
    TakePendingKeepsShape(e, e.cur.value);
  }

  /** A write reports its batch, with what was pending before it, exactly when the log is open and the batch is synced. */
  lemma WriteAcks(s: Node, n: nat, r: Io)
    requires Shape(s.log) && s.flush.Idle? && s.log.io.None?
    ensures WriteSteps(s, n, r).acked == s.acked + if s.log.open && r.Synced? then Elems(s.log.pending + Fresh(s.next, n)) else {}
  {
    hide Land, Fsync;
    EnqueueKeepsShape(s.log, Fresh(s.next, n));
    var s1 := Step(s, Action.Write(n));
    var c := s1.log.cur.value;
    TakePendingKeepsShape(s1.log, c);
    assert s1.log.batches[c].lines == s.log.pending + Fresh(s.next, n);
  }

  lemma WriteStepsKeep(s: Node, n: nat, r: Io)
    requires Core(s) && s.flush.Idle? && s.log.io.None?
    ensures Core(WriteSteps(s, n, r))
    ensures AckedSafe(s) && !s.log.segs[s.log.activeSeq].ragged ==> AckedSafe(WriteSteps(s, n, r))
  {
    WriteKeepsCore(s, n);
    var s1 := Step(s, Action.Write(n));
    var c := s1.log.cur.value;
    LeadKeepsCore(s1, c);
    var s2 := Step(s1, Action.Lead(c));
    FinishKeepsCore(s2, r);
    if AckedSafe(s) && !s.log.segs[s.log.activeSeq].ragged {
      WriteKeepsAcked(s, n);
      QuietKeepsAcked(s1, Action.Lead(c));
      assert s2.log.segs == s.log.segs && s2.log.activeSeq == s.log.activeSeq;
      FinishKeepsAcked(s2, r);
    }
  }

  /** A whole flush, as the steps of the machine it takes. */
  ghost function FlushSteps(s: Node, f: Faults): Node
    requires Shape(s.log) && s.flush.Idle? && s.log.io.None?
  {
    if s.mem == [] then s
    else
      var s1 := Step(s, Snapshot);
      SealKeepsShape(s1.log, f.r, f.rot);
      var s2 := Step(s1, SealLog(f.r, f.rot));
      if s2.flush.Idle? then s2
      else if !f.persist.Persisted? then Step(s2, PersistFails)
      else
        var s3 := Step(s2, CommitPart);
        Step(s3, DiscardLog(Removed(s3.log, s3.flush.upto, f.broken)))
  }

  /** The effect of a whole flush, without the stages it goes through. */
  lemma FlushStepsEffect(s: Node, f: Faults)
    requires Shape(s.log) && s.flush.Idle? && s.log.io.None? && s.mem != []
    ensures var (log, sealed) := Seal(s.log, f.r, f.rot);
            FlushSteps(s, f) ==
            if sealed.None? || !f.persist.Persisted? then s.(log := log)
            else s.(log := Discard(log, Removed(log, sealed.value, f.broken)), mem := [], parts := s.parts + [s.mem])
  {
    assert [] + s.mem == s.mem;
  }

  lemma FlushStepsKeepCore(s: Node, f: Faults)
    requires Core(s) && s.flush.Idle? && s.log.io.None?
    ensures Core(FlushSteps(s, f))
  {
    hide Mirrored, SealedCovered;
    if s.mem != [] {
      SnapshotKeepsCore(s);
      var s1 := Step(s, Snapshot);
      SealKeepsCore(s1, f.r, f.rot);
      var s2 := Step(s1, SealLog(f.r, f.rot));
      if s2.flush.Sealed? {
        PersistFailsKeepsCore(s2);
        CommitPartKeepsCore(s2);
        var s3 := Step(s2, CommitPart);
        DiscardKeepsCore(s3, Removed(s3.log, s3.flush.upto, f.broken));
      }
    }
  }

  lemma OpenedShape(s: Log, files: map<nat, File>)
    requires IsOpened(s, files) && forall q :: q in files ==> files[q].synced <= |files[q].cells|
    ensures Shape(s)
  {}

  /** After a seal the new active segment is empty, and there is none above it. */
  lemma SealedIsFresh(s: Log, r: Io, rot: Rotation)
    requires Shape(s) && s.io.None? && Seal(s, r, rot).1.Some?
    ensures var (t, sealed) := Seal(s, r, rot);
            Shape(t) && t.open && sealed == Some(s.activeSeq) && t.activeSeq == s.activeSeq + 1 && t.segs[t.activeSeq] == EMPTY_FILE
  {
    SealKeepsShape(s, r, rot);
    SealPendingKeepsShape(s, r);
    var v := SealPending(s, r).0;
    assert v.open ==> v.activeSeq + 1 !in v.segs;
  }

  lemma OpenIsHighest(s: Log)
    requires Shape(s) && s.open
    ensures forall q :: q in s.segs ==> q <= s.activeSeq
  {}

  /** A seal works exactly when the log is open, what is pending is synced, and the new segment can be made. */
  lemma SealSucceedsIff(s: Log, r: Io, rot: Rotation)
    requires Shape(s) && s.io.None?
    ensures Seal(s, r, rot).1.Some? <==> s.open && (s.cur.Some? ==> r.Synced?) && rot.Rotated?
  {
    hide Land;
  }

  lemma NoFlushSteps(s: Node, f: Faults)
    requires Shape(s.log) && s.flush.Idle? && s.log.io.None? && s.mem == []
    ensures FlushSteps(s, f) == s
  {}

  lemma NothingRecovered(s: Log)
    requires forall q :: q in s.segs ==> s.segs[q] == EMPTY_FILE
    ensures Recovered(s) == []
  {
    NothingReplayed(s.segs, s.activeSeq + 2);
  }

  lemma {:induction false} NothingReplayed(segs: map<nat, File>, n: nat)
    requires forall q :: q in segs ==> segs[q] == EMPTY_FILE
    ensures Replay(segs, n) == []
  {
    if n > 0 { NothingReplayed(segs, n - 1); }
  }

  class Lsm {
    const wal: SegLog
    var mem: seq<Rec>
    var next: nat
    var parts: seq<seq<Rec>>
    ghost var acked: set<Rec>

    ghost function View(): Node
      reads this, wal
    {
      Node(wal.View(), mem, next, Idle, parts, acked)
    }

    constructor (log: SegLog, entries: seq<Rec>, first: nat, committed: seq<seq<Rec>>, ghost promised: set<Rec>)
      ensures wal == log && mem == entries && next == first && parts == committed && acked == promised
    {
      wal, mem, next, parts, acked := log, entries, first, committed, promised;
    }

    /** Starts from what is on disk: the memtable holds what recovery reads, and there is no node if recovery fails. */
    static method Open(files: map<nat, File>, size: LineCaps.Sizes, unreadable: set<nat>, first: nat, committed: seq<seq<Rec>>, ghost promised: set<Rec>)
      returns (l: Lsm?)
      requires forall q :: q in files ==> files[q].synced <= |files[q].cells|
      ensures l == null <==> exists q :: q in files && !Scans(size, files, unreadable, q)
      ensures l != null ==>
                && fresh(l) && fresh(l.wal) && IsOpened(l.wal.View(), files) && Shape(l.wal.View())
                && l.View() == Node(l.wal.View(), Recovered(l.wal.View()), first, Idle, committed, promised)
    {
      var wal := new SegLog(files);
      OpenedShape(wal.View(), files);
      var r := wal.Recover(size, unreadable * files.Keys);
      if r.None? { return null; }
      l := new Lsm(wal, r.value, first, committed, promised);
    }

    /** Takes `n` entries; nil means that their batch was written and synced. */
    method Write(n: nat, r: Io) returns (ok: bool)
      requires Shape(wal.View()) && wal.io.None?
      modifies this, wal
      ensures View() == WriteSteps(old(View()), n, r)
      ensures acked == old(acked) + if ok then Elems(old(wal.pending) + Fresh(old(next), n)) else {}
      ensures ok <==> old(wal.open) && r.Synced?
    {
      hide Land, Fsync, Fresh, Elems, WriteSteps, Step, Enqueue;
      EnqueueKeepsShape(wal.View(), Fresh(next, n));
      WriteStepsAre(View(), n, r);
      var c := wal.Enqueue(Fresh(next, n));
      mem := mem + Fresh(next, n);
      next := next + n;
      ok := wal.CommitWait(c, r, []);
      acked := acked + if ok then Elems(old(wal.pending) + Fresh(old(next), n)) else {};
      WriteAcks(old(View()), n, r);
      assert EnqueueAll(TakePending(Enqueue(old(wal.View()), Fresh(old(next), n)), c), []) == TakePending(Enqueue(old(wal.View()), Fresh(old(next), n)), c);
    }

    /** Drains the memtable into a part, or puts it back if any stage fails. */
    method Flush(f: Faults) returns (ok: bool, discarded: bool)
      requires Shape(wal.View()) && wal.io.None?
      modifies this, wal
      ensures View() == FlushSteps(old(View()), f)
      ensures discarded && old(mem) != [] ==> ok && Recovered(wal.View()) == []
      ensures ok && !discarded ==> f.broken <= old(wal.activeSeq) || !f.dirSynced
      ensures ok <==> old(mem) == [] || (old(wal.open) && (old(wal.cur.Some?) ==> f.r.Synced?) && f.rot.Rotated? && f.persist.Persisted?)
      ensures !ok ==> parts == old(parts) && mem == old(mem)
      ensures ok && old(mem) != [] ==> parts == old(parts) + [old(mem)] && mem == []
    {
      hide Shape, Recovered, FlushSteps, Seal, Removed;
      ok, discarded := true, true;
      if mem == [] {
        NoFlushSteps(View(), f);
        return;
      }
      SealSucceedsIff(wal.View(), f.r, f.rot);
      FlushStepsEffect(View(), f);
      var entries := mem;
      mem := [];
      var sealed := wal.SealSegment(f.r, f.rot);
      if sealed.None? || f.persist != Persisted {
        mem := mem + entries;
        return false, false;
      }
      parts := parts + [entries];
      SealedIsFresh(old(wal.View()), f.r, f.rot);
      assert forall q :: q in wal.segs ==> q <= wal.activeSeq by { OpenIsHighest(wal.View()); }
      discarded := wal.DiscardUpTo(sealed.value, f.broken, f.dirSynced);
      if discarded { NothingRecovered(wal.View()); }
    }
  }
}
