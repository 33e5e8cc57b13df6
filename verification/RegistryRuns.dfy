/** Runs of the registry that break its provisos: a merge of too many parts, and a pointer that moves back. */
module RegistryRuns {
  import opened Prelude
  import opened PartLog
  import opened Registry

  lemma RunExtends(acts: seq<Action>, a: Action)
    ensures var s := Run(acts);
            Run(acts + [a]) == if Enabled(s, a) then Step(s, a) else s
  {
    assert (acts + [a])[..|acts|] == acts;
  }

  /** What an undisturbed call leaves alone. */
  ghost predicate SameElse(s: Store, t: Store)
  {
    t.low == s.low && t.pointers == s.pointers && t.nodes == s.nodes && t.cleaners == s.cleaners
  }

  /** An AppendLog call of client 0 that nobody disturbs. */
  lemma AppendedRun(acts: seq<Action>, e: LogEntry) returns (more: seq<Action>)
    requires var s := Run(acts); 0 !in s.attempts && Enabled(s, Begin(0, e))
    ensures var s, t := Run(acts), Run(more);
            && t.history == s.history + [e] && t.used == s.used + {e.id} && SameElse(s, t)
            && t.attempts == (if Remaining(e) != {} then s.attempts[0 := Deleting(Remaining(e))] else s.attempts)
            && t.parts == s.parts[e.id := e.info] - FirstBatch(e)
  {
    hide Run, Inv, FirstBatch, Remaining;
    var s := Run(acts);
    var n := |s.history|;
    var seen := if n == 0 then None else Some(n);
    RunExtends(acts, Begin(0, e));
    var a1 := acts + [Begin(0, e)];
    var s1 := Run(a1);
    LastIs(a1, seen);
    RunExtends(a1, ReadLast(0, seen));
    var a2 := a1 + [ReadLast(0, seen)];
    var a3 := a2;
    if n == 0 {
      RunExtends(a2, ReadBase(0));
      a3 := a2 + [ReadBase(0)];
    }
    var s3 := Run(a3);
    BaseIs(a3);
    RunExtends(a3, Commit(0));
    more := a3 + [Commit(0)];
    assert s3.attempts[0].revision == s3.rev;
    if Remaining(e) == {} { assert s3.attempts - {0} == s.attempts; }
  }

  lemma LastIs(acts: seq<Action>, seen: Option<nat>)
    requires var n := |Run(acts).history|; seen == if n == 0 then None else Some(n)
    ensures LastKey(Run(acts).log, seen)
  {
    var s := Run(acts);
    assert LogOk(s);
    if seen.None? { assert s.log == map[]; }
  }

  lemma BaseIs(acts: seq<Action>)
    ensures var s := Run(acts); s.baseMod <= s.rev
  {
    assert BaseOk(Run(acts));
  }

  function PutOf(i: nat): LogEntry { LogEntry(false, i, 0, [], 1) }

  /** Parts 0 to n - 1 were published and nothing else happened. */
  ghost predicate Published(s: Store, n: nat)
  {
    && |s.history| == n && (forall i :: 0 <= i < n ==> s.history[i] == PutOf(i))
    && (forall o :: o in s.used ==> o < n) && (forall i :: 0 <= i < n ==> i in s.parts)
    && SameElse(EMPTY, s) && s.attempts == map[]
  }

  lemma NothingPublished()
    ensures Published(Run([]), 0)
  {
    assert Run([]) == EMPTY;
  }

  /** A run that publishes parts 0 to n - 1. */
  lemma {:induction false} PutsRun(n: nat) returns (acts: seq<Action>)
    ensures Published(Run(acts), n)
  {
    hide Run, Inv;
    if n == 0 {
      acts := [];
      NothingPublished();
    } else {
      var before := PutsRun(n - 1);
      acts := AppendedRun(before, PutOf(n - 1));
    }
  }

  function AllBelow(n: nat): (r: seq<Id>)
    ensures |r| == n && forall i :: 0 <= i < n ==> r[i] == i
  {
    seq(n, i requires 0 <= i => i)
  }

  /** A merge of the 65 parts 0 to 64. */
  function BigMerge(): LogEntry { LogEntry(true, 65, 0, AllBelow(65), 1) }

  lemma BigMergeIs()
    ensures 64 in Dead(BigMerge()) && 64 !in FirstBatch(BigMerge())
  {
    var e := BigMerge();
    assert e.olds[64] == 64;
    assert forall i :: 0 <= i < 64 ==> e.olds[..64][i] == i;
  }

  /** A reached store: after a merge of 65 parts the last of them is still a part key and not in the fold. */
  lemma LargeMergeRun() returns (acts: seq<Action>)
    ensures var s := Run(acts); 64 in s.parts && 64 !in Fold(s.history)
  {
    hide Run, Inv, FirstBatch, Remaining, Fold, BigMerge, Dead;
    var before := PutsRun(65);
    var s := Run(before);
    BigMergeReady(s);
    acts := AppendedRun(before, BigMerge());
    FoldSnoc(s.history, BigMerge());
    BigMergeIs();
    assert 64 in s.parts;
  }

  lemma BigMergeReady(s: Store)
    requires Published(s, 65)
    ensures 0 !in s.attempts && Enabled(s, Begin(0, BigMerge())) && BigMerge().id == 65
  {
    forall o | o in BigMerge().olds ensures Added(s.history, |s.history|, o) { assert s.history[o].id == o; }
  }

  lemma PointerStep(acts: seq<Action>, n: NodeId, p: nat)
    requires p <= |Run(acts).history|
    ensures var s, t := Run(acts), Run(acts + [SetPointer(n, p)]);
            && t.pointers == s.pointers[n := p] && t.history == s.history && t.low == s.low
            && t.nodes == s.nodes && t.cleaners == s.cleaners
  {
    hide Run, Inv;
    RunExtends(acts, SetPointer(n, p));
  }

  /** A node registers and stores a pointer, and cleanup 5 reads nodes and pointers. */
  lemma CleanerSaw(acts: seq<Action>, n: NodeId, p: nat) returns (more: seq<Action>)
    requires var s := Run(acts); s.nodes == {} && s.pointers == map[] && s.cleaners == map[] && p <= |s.history|
    ensures var s, t := Run(acts), Run(more);
            t.history == s.history && t.low == s.low && t.nodes == {n} && t.cleaners == map[5 := SawPointers({n}, map[n := p])]
  {
    hide Run, Inv;
    RunExtends(acts, Register(n));
    var a1 := acts + [Register(n)];
    PointerStep(a1, n, p);
    var a2 := a1 + [SetPointer(n, p)];
    RunExtends(a2, CleanNodes(5));
    var a3 := a2 + [CleanNodes(5)];
    RunExtends(a3, CleanPointers(5));
    more := a3 + [CleanPointers(5)];
    assert {} + {n} == {n};
  }

  lemma LeastOfOne(n: NodeId, p: nat)
    ensures IsMinPointer({n}, map[n := p], p)
  {
    assert PointerOf(map[n := p], n) == p;
  }

  /**
   A reached store in which an unread entry is gone: node 7 stores pointer 3, a cleanup
   reads it, the node stores pointer 1 again as after a bootstrap that failed half way, and
   the cleanup deletes entry 2.
   */
  lemma CleanupAfterPointerMovedBack() returns (acts: seq<Action>)
    ensures var s := Run(acts);
            |s.history| == 3 && 7 in s.nodes && PointerOf(s.pointers, 7) == 1 && 2 !in s.log && 3 in s.log
  {
    hide Run, Inv, IsMinPointer;
    var a0 := PutsRun(3);
    var a4 := CleanerSaw(a0, 7, 3);
    PointerStep(a4, 7, 1);
    var a5 := a4 + [SetPointer(7, 1)];
    LeastOfOne(7, 3);
    RunExtends(a5, CleanDelete(5, 3));
    acts := a5 + [CleanDelete(5, 3)];
    LogKeys(acts);
  }

  lemma LogKeys(acts: seq<Action>)
    ensures var s := Run(acts); forall i :: i in s.log <==> s.low < i <= |s.history|
  {
    assert LogOk(Run(acts));
  }
}
