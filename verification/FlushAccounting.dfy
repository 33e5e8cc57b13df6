/**
 Two exact counts over runs of the write path: without crashes every entry is in exactly
 one place, and the memtable is what the undiscarded segments hold exactly as long as the log
 loses no line and keeps none it should discard.
 */
module FlushAccounting {
  import opened Prelude
  import opened SegmentLog
  import opened Durability

  ghost function PartsBag(parts: seq<seq<Rec>>): multiset<Rec>
  {
    if parts == [] then multiset{} else PartsBag(parts[..|parts| - 1]) + multiset(parts[|parts| - 1])
  }

  /** Memtable, snapshot not yet in a part, and parts, counted with multiplicity. */
  ghost function Holdings(s: Node): multiset<Rec>
  {
    multiset(s.mem)
    + (if s.flush.Snapped? || s.flush.Sealed? then multiset(s.flush.snap) else multiset{})
    + PartsBag(s.parts)
  }

  ghost predicate CrashFree(acts: seq<Action>)
  {
    forall a :: a in acts ==> !a.Crash?
  }

  lemma FreshExtends(from: nat, n: nat)
    ensures Fresh(0, from) + Fresh(from, n) == Fresh(0, from + n)
  {
  }

  lemma WriteConserves(s: Node, n: nat)
    requires Shape(s.log) && Enabled(s, Write(n))
    requires Holdings(s) == multiset(Fresh(0, s.next))
    ensures Holdings(Step(s, Write(n))) == multiset(Fresh(0, s.next + n))
  {
    FreshExtends(s.next, n);
    assert Holdings(Step(s, Write(n))) == Holdings(s) + multiset(Fresh(s.next, n));
  }

  lemma CommitConserves(s: Node)
    requires Shape(s.log) && Enabled(s, CommitPart)
    ensures Holdings(Step(s, CommitPart)) == Holdings(s)
  {
    assert (s.parts + [s.flush.snap])[..|s.parts|] == s.parts;
  }

  lemma OtherConserves(s: Node, a: Action)
    requires Core(s) && Enabled(s, a) && !a.Crash? && !a.Write? && !a.CommitPart?
    ensures Holdings(Step(s, a)) == Holdings(s) && Step(s, a).next == s.next
  {
  }

  lemma StepConserves(s: Node, a: Action)
    requires Core(s) && Enabled(s, a) && !a.Crash?
    requires Holdings(s) == multiset(Fresh(0, s.next))
    ensures Holdings(Step(s, a)) == multiset(Fresh(0, Step(s, a).next))
  {
    match a {
      case Write(n) => WriteConserves(s, n);
      case CommitPart => CommitConserves(s);
      case _ => OtherConserves(s, a);
    }
  }

  /**
   In every run without crashes, whatever fails, the entries handed to Write are exactly
   those in the memtable, in the snapshot in flight and in the parts, each counted once.
   */
  lemma {:induction false} EntriesConserved(acts: seq<Action>)
    requires CrashFree(acts)
    ensures var s := Run(acts);
            Holdings(s) == multiset(Fresh(0, s.next))
  {
    if acts == [] {
      assert Fresh(0, 0) == [];
    } else {
      var before := acts[..|acts| - 1];
      var a := acts[|acts| - 1];
      assert a in acts && forall b :: b in before ==> b in acts;
      EntriesConserved(before);
      if Enabled(Run(before), a) { StepConserves(Run(before), a); }
    }
  }

  // ---------- the memtable mirrors the undiscarded segments ----------

  /** What the log holds or has promised to write, counted with multiplicity. */
  ghost function WalBag(s: Log): multiset<Rec>
  {
    multiset(Recovered(s)) + (multiset(InFlight(s)) + multiset(s.pending))
  }

  ghost function MemBag(s: Node): multiset<Rec> { multiset(s.mem) + multiset(SnapOf(s.flush)) }

  /** Once sealed, the segments up to the sealed one hold exactly the snapshot. */
  ghost predicate SnapshotSealed(s: Node)
  {
    && (s.flush.Snapped? ==> s.mem == [])
    && (s.flush.Sealed? || s.flush.Committed? ==>
          && s.flush.upto < s.log.activeSeq
          && multiset(s.flush.snap) == multiset(Replay(s.log.segs, s.flush.upto + 1)))
  }

  ghost predicate Mirror(s: Node)
  {
    Shape(s.log) && s.log.open && MemBag(s) == WalBag(s.log) && SnapshotSealed(s)
  }

  lemma EnqueueBag(s: Log, buf: seq<Rec>)
    requires Shape(s)
    ensures WalBag(Enqueue(s, buf)) == WalBag(s) + multiset(buf)
    ensures Enqueue(s, buf).segs == s.segs
  {
    assert Enqueue(s, buf).pending == s.pending + buf;
  }

  lemma WriteKeepsMirror(s: Node, n: nat)
    requires Mirror(s) && Enabled(s, Write(n))
    ensures Mirror(Step(s, Write(n)))
  {
    var buf := Fresh(s.next, n);
    EnqueueKeepsShape(s.log, buf);
    EnqueueBag(s.log, buf);
    assert MemBag(Step(s, Write(n))) == MemBag(s) + multiset(buf);
  }

  lemma LeadKeepsMirror(s: Node, c: nat)
    requires Mirror(s) && Enabled(s, Action.Lead(c))
    ensures Mirror(Step(s, Action.Lead(c)))
  {
    TakePendingKeepsShape(s.log, c);
  }

  /** Every line of the write becomes a record of its own in the active segment. */
  ghost predicate AllLand(s: Log, lines: seq<Rec>, r: Io)
    requires s.activeSeq in s.segs
  {
    lines == [] || (!s.segs[s.activeSeq].ragged && LinesDown(lines, r) == |lines|)
  }

  lemma ShorterBag(xs: seq<Rec>, ys: seq<Rec>, zs: multiset<Rec>)
    requires |xs| < |ys|
    ensures multiset(xs) + zs != multiset(ys) + zs
  {
    assert |multiset(xs) + zs| < |multiset(ys) + zs|;
  }

  /** A write keeps what the log holds or has promised exactly when all of it lands. */
  lemma WriteBagIff(s: Log, t: Log, lines: seq<Rec>, r: Io, rest: multiset<Rec>)
    requires Shape(s) && s.open
    requires multiset(InFlight(s)) + multiset(s.pending) == multiset(lines) + rest
    requires t.segs == WriteActive(s, lines, r).0 && t.activeSeq == s.activeSeq
    requires multiset(InFlight(t)) + multiset(t.pending) == rest
    ensures WalBag(t) == WalBag(s) <==> AllLand(s, lines, r)
  {
    RecoveredAfterIo(s, lines, r);
    var down := Landing(s.segs[s.activeSeq].ragged, lines, LinesDown(lines, r));
    assert Recovered(t) == Recovered(s) + down;
    hide Shape, WriteActive, Recovered, InFlight;
    assert WalBag(s) == multiset(Recovered(s) + lines) + rest;
    assert WalBag(t) == multiset(Recovered(s) + down) + rest;
    if !AllLand(s, lines, r) { ShorterBag(Recovered(s) + down, Recovered(s) + lines, rest); }
  }

  lemma FinishMirrorsIff(s: Node, r: Io)
    requires Mirror(s) && Enabled(s, Action.Finish(r))
    ensures Mirror(Step(s, Action.Finish(r))) <==> AllLand(s.log, s.log.io.value.buf, r)
  {
    FinishFlushKeepsShape(s.log, r);
    FinishKeepsSealed(s, r);
    var t := Step(s, Action.Finish(r));
    assert multiset(InFlight(t.log)) == multiset{};
    WriteBagIff(s.log, t.log, s.log.io.value.buf, r, multiset(s.log.pending));
    hide Shape, WalBag, SnapshotSealed, AllLand;
  }

  lemma FinishKeepsSealed(s: Node, r: Io)
    requires Shape(s.log) && SnapshotSealed(s) && Enabled(s, Action.Finish(r))
    ensures SnapshotSealed(Step(s, Action.Finish(r)))
  {
    hide Land, Recs, Replay;
    var t := Step(s, Action.Finish(r));
    if s.flush.Sealed? || s.flush.Committed? {
      ReplayCongruent(t.log.segs, s.log.segs, s.flush.upto + 1);
    }
  }

  /** Flushing the pending lines before a seal keeps the count exactly when all of them land. */
  lemma SealPendingIff(s: Log, r: Io)
    requires Shape(s) && s.open && s.io.None?
    ensures var v := SealPending(s, r).0;
            && Shape(v) && v.open && v.cur.None? && v.io.None? && v.activeSeq == s.activeSeq
            && (WalBag(v) == WalBag(s) <==> AllLand(s, s.pending, r))
  {
    SealPendingKeepsShape(s, r);
    var v := SealPending(s, r).0;
    assert v.pending == [] && multiset(InFlight(v)) == multiset(InFlight(s)) == multiset{};
    if s.cur.Some? { WriteBagIff(s, v, s.pending, r, multiset{}); }
    hide Shape, WalBag, AllLand;
  }

  /** The log can be used after the rotation. */
  predicate Usable(rot: Rotation) { rot.Rotated? || (rot.OpenFailed? && rot.reopened) }

  lemma RotateBag(s: Log, rot: Rotation)
    requires Shape(s) && s.open && s.io.None? && s.cur.None?
    ensures var t := Rotate(s, rot).0;
            (t.open <==> Usable(rot)) && (Usable(rot) ==> WalBag(t) == WalBag(s))
  {
    if rot.Rotated? { RecoveredAfterRotate(s); }
  }

  /** The pending lines land, and if the rotation was tried, the log can still be used. */
  ghost predicate SealLands(s: Log, r: Io, rot: Rotation)
    requires SealReady(s)
  {
    AllLand(s, s.pending, r) && (SealPending(s, r).1 ==> Usable(rot))
  }

  lemma SealBagIff(s: Log, r: Io, rot: Rotation)
    requires Shape(s) && s.open && s.io.None?
    ensures var t := Seal(s, r, rot).0;
            Shape(t) && (t.open && WalBag(t) == WalBag(s) <==> SealLands(s, r, rot))
  {
    SealKeepsShape(s, r, rot);
    SealPendingIff(s, r);
    var v, ok := SealPending(s, r).0, SealPending(s, r).1;
    if ok { RotateBag(v, rot); }
    hide Shape, WalBag, AllLand, Rotate, SealPending;
  }

  lemma SealMirrorsIff(s: Node, r: Io, rot: Rotation)
    requires Mirror(s) && Enabled(s, SealLog(r, rot))
    ensures Mirror(Step(s, SealLog(r, rot))) <==> SealLands(s.log, r, rot)
  {
    SealBagIff(s.log, r, rot);
    SealMem(s, r, rot);
    var t := Step(s, SealLog(r, rot));
    if t.flush.Sealed? && SealLands(s.log, r, rot) { SealedHoldsSnapshot(s, r, rot); }
    hide WalBag, MemBag, SealLands, Shape, Seal;
  }

  lemma SealMem(s: Node, r: Io, rot: Rotation)
    requires Shape(s.log) && s.log.io.None? && s.flush.Snapped?
    ensures MemBag(Step(s, SealLog(r, rot))) == MemBag(s)
  {
    hide Shape, Seal;
  }

  lemma SealedLog(s: Log, r: Io, rot: Rotation)
    requires Shape(s) && s.open && s.io.None? && Seal(s, r, rot).1.Some?
    ensures var (t, sealed) := Seal(s, r, rot);
            && sealed == Some(s.activeSeq) && t.activeSeq == s.activeSeq + 1
            && WalBag(t) == multiset(Replay(t.segs, s.activeSeq + 1))
  {
    SealPendingKeepsShape(s, r);
    SealKeepsShape(s, r, rot);
    var v := SealPending(s, r).0;
    var t := Seal(s, r, rot).0;
    assert v.open && v.activeSeq == s.activeSeq && v.io.None? && v.pending == [];
    assert t == Rotate(v, Rotated).0;
    assert v.activeSeq + 1 !in v.segs;
    hide SealPending, Seal, Recovered, Replay, WriteActive;
    SealedReplay(t, s.activeSeq);
    QuietBag(t);
  }

  lemma QuietBag(s: Log)
    requires s.pending == [] && s.io.None?
    ensures WalBag(s) == multiset(Recovered(s))
  {}

  lemma SealedHoldsSnapshot(s: Node, r: Io, rot: Rotation)
    requires Mirror(s) && Enabled(s, SealLog(r, rot)) && SealLands(s.log, r, rot)
    requires Step(s, SealLog(r, rot)).flush.Sealed?
    ensures SnapshotSealed(Step(s, SealLog(r, rot)))
  {
    assert s.mem == [] && multiset(s.mem) == multiset{};
    hide Shape, SealLands, Seal, Replay, WalBag;
    SealedLog(s.log, r, rot);
    SealBagIff(s.log, r, rot);
  }

  lemma SealedReplay(s: Log, sealed: nat)
    requires Shape(s) && s.activeSeq == sealed + 1 && s.segs[s.activeSeq] == EMPTY_FILE && s.open
    ensures Recovered(s) == Replay(s.segs, sealed + 1)
  {
    assert Replay(s.segs, sealed + 3) == Replay(s.segs, sealed + 2);
    assert Replay(s.segs, sealed + 2) == Replay(s.segs, sealed + 1) + [];
  }

  lemma ReplayLow(segs: map<nat, File>, low: set<nat>, cut: nat, n: nat)
    requires cut <= n && forall q :: q in segs ==> (q in low <==> q < cut)
    ensures Replay(segs, n) == Replay(segs, cut) + Replay(segs - low, n)
  {
    ReplaySplit(segs, low, cut, n);
    var lowSegs := segs - (segs.Keys - low);
    ReplayCongruent(lowSegs, segs, cut);
    ReplayStops(lowSegs, cut, n);
  }

  /** Dropping every segment up to the sealed one takes exactly those lines away. */
  lemma DiscardBag(s: Log, upto: nat)
    requires Shape(s) && s.open && upto < s.activeSeq
    ensures Shape(Discard(s, Below(s, upto)))
    ensures WalBag(s) == multiset(Replay(s.segs, upto + 1)) + WalBag(Discard(s, Below(s, upto)))
  {
    var t := Discard(s, Below(s, upto));
    assert forall b: nat :: Unresolved(t, b) ==> Unresolved(s, b);
    ReplayLow(s.segs, Below(s, upto), upto + 1, s.activeSeq + 2);
  }

  lemma DiscardKeepsShape(s: Log, upto: nat, gone: set<nat>)
    requires Shape(s) && Removable(s, upto, gone)
    ensures Shape(Discard(s, gone))
  {
    assert forall b: nat :: Unresolved(Discard(s, gone), b) ==> Unresolved(s, b);
  }

  lemma LowLeft(segs: map<nat, File>, low: set<nat>, gone: set<nat>, cut: nat, n: nat)
    requires cut <= n && gone <= low && forall q :: q in segs ==> (q in low <==> q < cut)
    ensures Replay(segs - gone, n) == Replay(segs - gone, cut) + Replay(segs - low, n)
  {
    hide Replay;
    var left := low - gone;
    assert (segs - gone) - left == segs - low;
    ReplayLow(segs - gone, left, cut, n);
  }

  lemma MoreRecovered(t: Log, u: Log, left: seq<Rec>)
    requires Recovered(t) == left + Recovered(u) && t.io == u.io && t.pending == u.pending
    ensures WalBag(t) == multiset(left) + WalBag(u)
  {
    hide Recovered;
  }

  /** Dropping some of them leaves the lines of the others behind. */
  lemma DiscardSomeBag(s: Log, upto: nat, gone: set<nat>)
    requires Shape(s) && s.open && upto < s.activeSeq && Removable(s, upto, gone)
    ensures Shape(Discard(s, gone))
    ensures WalBag(Discard(s, gone)) == multiset(Replay(s.segs - gone, upto + 1)) + WalBag(Discard(s, Below(s, upto)))
  {
    hide Shape, Replay, WalBag;
    DiscardKeepsShape(s, upto, gone);
    LowLeft(s.segs, Below(s, upto), gone, upto + 1, s.activeSeq + 2);
    MoreRecovered(Discard(s, gone), Discard(s, Below(s, upto)), Replay(s.segs - gone, upto + 1));
  }

  /** What a discard leaves behind of the segments it should remove holds no record. */
  ghost predicate NothingLeft(s: Node, gone: set<nat>)
  {
    s.flush.Committed? && Replay(s.log.segs - gone, s.flush.upto + 1) == []
  }

  lemma LeftIff(mem: multiset<Rec>, snap: multiset<Rec>, rest: multiset<Rec>, left: seq<Rec>)
    requires mem + snap == snap + rest
    ensures mem == multiset(left) + rest <==> left == []
  {
    Cancel(mem, snap, rest);
    if left != [] { assert |multiset(left) + rest| > |rest|; }
  }

  lemma DiscardMirrorsIff(s: Node, gone: set<nat>)
    requires Mirror(s) && Enabled(s, DiscardLog(gone))
    ensures Mirror(Step(s, DiscardLog(gone))) <==> NothingLeft(s, gone)
  {
    hide Shape, WalBag, Replay, Discard, Below;
    var upto := s.flush.upto;
    DiscardBag(s.log, upto);
    DiscardSomeBag(s.log, upto, gone);
    assert Discard(s.log, gone).open == s.log.open by { DiscardOpen(s.log, gone); }
    LeftIff(multiset(s.mem), multiset(s.flush.snap), WalBag(Discard(s.log, Below(s.log, upto))), Replay(s.log.segs - gone, upto + 1));
  }

  lemma DiscardOpen(s: Log, gone: set<nat>)
    ensures Discard(s, gone).open == s.open
  {}

  lemma Cancel(a: multiset<Rec>, b: multiset<Rec>, c: multiset<Rec>)
    requires a + b == b + c
    ensures a == c
  {
    assert a == (a + b) - b;
    assert c == (b + c) - b;
  }

  lemma {:induction false} ReplayStops(segs: map<nat, File>, m: nat, n: nat)
    requires m <= n && forall q :: q in segs ==> q < m
    ensures Replay(segs, n) == Replay(segs, m)
  {
    if m < n { ReplayStops(segs, m, n - 1); }
  }

  lemma CrashKeepsMirror(s: Node, cuts: map<nat, Cut>)
    requires Mirror(s) && Enabled(s, Crash(cuts))
    ensures Mirror(Step(s, Crash(cuts)))
  {
    ReopenKeepsShape(s.log, cuts);
  }

  /** The step costs the log no line that the memtable has, and the memtable none that the log has. */
  ghost predicate Lossless(s: Node, a: Action)
    requires Shape(s.log) && Enabled(s, a)
  {
    match a
    case Finish(r) => AllLand(s.log, s.log.io.value.buf, r)
    case SealLog(r, rot) => SealLands(s.log, r, rot)
    case DiscardLog(gone) => NothingLeft(s, gone)
    case _ => true
  }

  lemma OtherKeepsMirror(s: Node, a: Action)
    requires Mirror(s) && Enabled(s, a) && (a.Wait? || a.Snapshot? || a.PersistFails? || a.CommitPart?)
    ensures Mirror(Step(s, a))
  {
    hide Shape, WalBag, Replay;
  }

  lemma StepMirrorsIff(s: Node, a: Action)
    requires Mirror(s) && Enabled(s, a)
    ensures Mirror(Step(s, a)) <==> Lossless(s, a)
  {
    hide WalBag, MemBag, SnapshotSealed, AllLand, SealLands, NothingLeft, Step;
    match a {
      case Write(n) => WriteKeepsMirror(s, n);
      case Lead(c) => LeadKeepsMirror(s, c);
      case Finish(r) => FinishMirrorsIff(s, r);
      case SealLog(r, rot) => SealMirrorsIff(s, r, rot);
      case DiscardLog(gone) => DiscardMirrorsIff(s, gone);
      case Crash(cuts) => CrashKeepsMirror(s, cuts);
      case _ => OtherKeepsMirror(s, a);
    }
  }

  ghost predicate LosslessRun(acts: seq<Action>)
  {
    acts == [] ||
    var before := acts[..|acts| - 1];
    var s := Run(before);
    LosslessRun(before) && (Enabled(s, acts[|acts| - 1]) ==> Lossless(s, acts[|acts| - 1]))
  }

  ghost predicate MirrorThroughout(acts: seq<Action>)
  {
    Mirror(Run(acts)) && (acts == [] || MirrorThroughout(acts[..|acts| - 1]))
  }

  /**
   The stated invariant of the flush protocol, over every run: the log stays usable and the
   memtable holds exactly what the undiscarded segments hold, plus what is still on its way
   to them, if and only if no write left a line out, no rotation left the log closed, and no
   discard left a segment with records behind.
   */
  lemma {:induction false} MemtableMirrorsSegments(acts: seq<Action>)
    ensures MirrorThroughout(acts) <==> LosslessRun(acts)
    ensures var s := Run(acts);
            MirrorThroughout(acts) && s.flush.Idle? ==> multiset(s.mem) == WalBag(s.log)
  {
    if acts == [] {
      FreshRecovers();
    } else {
      var before := acts[..|acts| - 1];
      MemtableMirrorsSegments(before);
      var s := Run(before);
      assert LosslessRun(before) ==> Mirror(s);
      if Mirror(s) && Enabled(s, acts[|acts| - 1]) { StepMirrorsIff(s, acts[|acts| - 1]); }
    }
  }

  lemma FreshRecovers()
    ensures Recovered(FRESH) == []
  {
    assert Replay(FRESH.segs, 1) == [];
    assert Replay(FRESH.segs, 2) == [];
  }
}
