/** The order of records in the segments, in runs of the log without I/O errors. */
module SegmentOrder {
  import opened Prelude
  import opened SegmentLog

  /** A log together with the lines that Discard has removed from it, oldest first. */
  datatype Trail = Trail(log: Log, gone: seq<Rec>)

  datatype Act = Put(buf: seq<Rec>) | Lead(waiter: nat) | Finish | Retire | Drop(upto: nat)

  ghost function Apply(t: Trail, a: Act): Trail
    requires Shape(t.log)
  {
    var s := t.log;
    match a
    case Put(buf) => t.(log := Enqueue(s, buf))
    case Lead(c) => if s.io.None? && Unresolved(s, c) then t.(log := TakePending(s, c)) else t
    case Finish => if s.io.Some? then t.(log := FinishFlush(s, Synced)) else t
    case Retire => if s.io.None? then t.(log := Seal(s, Synced, Rotated).0) else t
    case Drop(upto) =>
      if s.io.None? then
        var gone := Below(s, upto);
        Trail(Discard(s, gone), t.gone + Replay(s.segs - (s.segs.Keys - gone), s.activeSeq + 2))
      else t
  }

  ghost function Flat(bs: seq<Batch>): seq<Rec>
  {
    if bs == [] then [] else Flat(bs[..|bs| - 1]) + bs[|bs| - 1].lines
  }

  ghost predicate Clean(s: Log)
  {
    && s.open
    && forall q :: q in s.segs ==> !s.segs[q].ragged && s.segs[q].synced == |s.segs[q].cells|
  }

  /** Every line the log has taken: discarded, recovered, in flight, pending. */
  ghost function Taken(t: Trail): seq<Rec>
  {
    t.gone + Recovered(t.log) + InFlight(t.log) + t.log.pending
  }

  ghost predicate InOrder(t: Trail)
  {
    Shape(t.log) && Clean(t.log) && Taken(t) == Flat(t.log.batches)
  }

  lemma {:induction false} FlatSameLines(a: seq<Batch>, b: seq<Batch>)
    requires |a| == |b| && forall i :: 0 <= i < |a| ==> a[i].lines == b[i].lines
    ensures Flat(a) == Flat(b)
  {
    if a != [] { FlatSameLines(a[..|a| - 1], b[..|b| - 1]); }
  }

  lemma EnqueueFlat(s: Log, buf: seq<Rec>)
    requires Shape(s)
    ensures Flat(Enqueue(s, buf).batches) == Flat(s.batches) + buf
  {
    var t := Enqueue(s, buf);
    var n := |t.batches| - 1;
    var before := if s.cur.Some? then s.batches else s.batches + [Batch([], None)];
    assert t.batches[..n] == before[..n];
    assert t.batches[n].lines == before[n].lines + buf;
    assert s.cur.None? ==> before[..n] == s.batches;
  }

  lemma PutInOrder(t: Trail, buf: seq<Rec>)
    requires InOrder(t)
    ensures InOrder(Apply(t, Put(buf)))
  {
    var s := t.log;
    EnqueueKeepsShape(s, buf);
    EnqueueFlat(s, buf);
    assert Enqueue(s, buf).pending == s.pending + buf;
  }

  lemma FinishTaken(t: Trail)
    requires Shape(t.log) && Clean(t.log) && t.log.io.Some?
    ensures Clean(FinishFlush(t.log, Synced))
    ensures Taken(Apply(t, Finish)) == Taken(t)
  {
    var s := t.log;
    RecoveredAfterWrite(s, s.io.value.buf);
    assert t.gone + (Recovered(s) + s.io.value.buf) + [] == t.gone + Recovered(s) + s.io.value.buf;
  }

  lemma FinishInOrder(t: Trail)
    requires InOrder(t) && t.log.io.Some?
    ensures InOrder(Apply(t, Finish))
  {
    FinishTaken(t);
    FinishFlushKeepsShape(t.log, Synced);
    FlatSameLines(t.log.batches, FinishFlush(t.log, Synced).batches);
  }

  lemma SealPendingTaken(t: Trail)
    requires Shape(t.log) && Clean(t.log) && t.log.io.None?
    ensures Clean(SealPending(t.log, Synced).0)
    ensures Taken(t.(log := SealPending(t.log, Synced).0)) == Taken(t)
  {
    var s := t.log;
    if s.cur.Some? {
      RecoveredAfterWrite(s, s.pending);
      assert t.gone + (Recovered(s) + s.pending) + [] + [] == t.gone + Recovered(s) + [] + s.pending;
    }
  }

  lemma RetireInOrder(t: Trail)
    requires InOrder(t) && t.log.io.None?
    ensures InOrder(Apply(t, Retire))
  {
    var v := SealPending(t.log, Synced).0;
    SealPendingTaken(t);
    SealPendingKeepsShape(t.log, Synced);
    FlatSameLines(t.log.batches, v.batches);
    RotateKeepsShape(v, Rotated);
    RecoveredAfterRotate(v);
  }

  lemma DropKeepsShape(s: Log, upto: nat)
    requires Shape(s)
    ensures Shape(Discard(s, Below(s, upto)))
  {
    var u := Discard(s, Below(s, upto));
    assert forall b: nat :: Unresolved(u, b) ==> Unresolved(s, b);
  }

  lemma DropInOrder(t: Trail, upto: nat)
    requires InOrder(t) && t.log.io.None?
    ensures InOrder(Apply(t, Drop(upto)))
  {
    var s := t.log;
    var low := Below(s, upto);
    ReplaySplit(s.segs, low, Min(upto + 1, s.activeSeq), s.activeSeq + 2);
    DropKeepsShape(s, upto);
    var removed := Replay(s.segs - (s.segs.Keys - low), s.activeSeq + 2);
    assert t.gone + (removed + Recovered(Discard(s, low))) == t.gone + removed + Recovered(Discard(s, low));
  }

  lemma ApplyInOrder(t: Trail, a: Act)
    requires InOrder(t)
    ensures InOrder(Apply(t, a))
  {
    var s := t.log;
    match a {
      case Put(buf) => PutInOrder(t, buf);
      case Lead(c) => if s.io.None? && Unresolved(s, c) { TakePendingKeepsShape(s, c); }
      case Finish => if s.io.Some? { FinishInOrder(t); }
      case Retire => if s.io.None? { RetireInOrder(t); }
      case Drop(upto) => if s.io.None? { DropInOrder(t, upto); }
    }
  }

  ghost function Run(acts: seq<Act>): (t: Trail)
    ensures InOrder(t)
  {
    if acts == [] then
      assert Recovered(FRESH) == [] by { ReplayFresh(); }
      Trail(FRESH, [])
    else
      var t := Run(acts[..|acts| - 1]);
      ApplyInOrder(t, acts[|acts| - 1]);
      Apply(t, acts[|acts| - 1])
  }

  lemma ReplayFresh()
    ensures Replay(map[1 := EMPTY_FILE], 3) == []
  {
    assert Replay(map[1 := EMPTY_FILE], 1) == [];
    assert Replay(map[1 := EMPTY_FILE], 2) == [];
  }

  lemma TakenWhenQuiet(t: Trail)
    requires Shape(t.log) && t.log.io.None? && t.log.cur.None?
    ensures Taken(t) == t.gone + Recovered(t.log)
  {
    assert t.gone + Recovered(t.log) + [] + [] == t.gone + Recovered(t.log);
  }

  /**
   In every run without I/O errors, once nothing is pending or in flight, the discarded
   segments followed by the ones on disk hold every enqueued buffer once, in enqueue order.
   */
  lemma SegmentsHoldBatchesInOrder(acts: seq<Act>)
    ensures var t := Run(acts);
            t.log.io.None? && t.log.cur.None? ==> t.gone + Recovered(t.log) == Flat(t.log.batches)
  {
    var t := Run(acts);
    if t.log.io.None? && t.log.cur.None? { TakenWhenQuiet(t); }
  }
}
