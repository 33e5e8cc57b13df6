/** Runs of a replica. */
module ReplicaRuns {
  // Runs of a replica: what it can never forget, and when it holds exactly the live parts.

  import opened Prelude
  import opened PartLog
  import opened Replica

  // ---------- no stale parts ----------

  /** An entry the replica has processed or written itself, published or not. */
  predicate Reached(s: State, i: nat) { i < |s.history| && (i < s.pointer || Own(s, i)) }

  ghost predicate FromReached(s: State, id: Id)
  {
    exists i: nat :: Reached(s, i) && s.history[i].id == id
  }

  /** Every listed part comes from a reached entry and no visible entry supersedes it. */
  ghost predicate NoStale(s: State)
  {
    forall id :: id in s.parts ==> FromReached(s, id) && forall j: nat :: Seen(s, j) ==> id !in Dead(s.history[j])
  }

  ghost predicate Exact(s: State)
  {
    Shape(s) && Remembers(s) && s.pending == map[] && NoDup(s.parts) && NoStale(s)
  }

  /** All fetches and registry reads of this step succeed. */
  predicate FaultFree(a: Action)
  {
    match a
    case Apply(fetched) => fetched
    case BootInstall(_, failed, moved) => failed == {} && moved
    case BootFail(_) => false
    case Restart(_, failed) => failed == {}
    case _ => true
  }

  /** No own entry published past the snapshot supersedes a part that the snapshot lists. */
  ghost predicate SnapshotUnmerged(s: State)
  {
    s.boot.Some? && s.boot.value <= |s.history| ==>
      forall i: nat :: s.boot.value <= i && Own(s, i) && s.inflight != Some(i) ==>
        Dead(s.history[i]) !! LiveIds(s.history[..s.boot.value])
  }

  /** Own parts are superseded by own entries only, and never before they are added. */
  lemma SupersedingEntry(s: State, i: nat, j: nat)
    requires Shape(s) && i < |s.history| && j < |s.history| && s.history[i].id in Dead(s.history[j])
    ensures i < j && s.history[i].node == s.history[j].node
  {
    var o := s.history[i].id;
    assert AddedBy(s.history, j, o, s.history[j].node);
    var k :| 0 <= k < j && s.history[k].id == o && s.history[k].node == s.history[j].node;
    assert k == i;
  }

  lemma CommitNoStale(s: State, a: Action)
    requires Shape(s) && NoStale(s) && Enabled(s, a) && (a.OtherCommit? || a.OwnCommit?)
    ensures NoStale(Step(s, a))
  {
    var t := Step(s, a);
    forall id | id in t.parts
      ensures FromReached(t, id) && forall j: nat :: Seen(t, j) ==> id !in Dead(t.history[j])
    {
      var i: nat :| Reached(s, i) && s.history[i].id == id;
      assert Reached(t, i) && t.history[i].id == id;
      forall j: nat | Seen(t, j) ensures id !in Dead(t.history[j]) { assert Seen(s, j); }
    }
  }

  lemma PublishNoStale(s: State)
    requires Shape(s) && NoStale(s) && Enabled(s, Publish)
    ensures NoStale(Step(s, Publish))
  {
    var t := Step(s, Publish);
    var f := s.inflight.value;
    forall id | id in t.parts
      ensures FromReached(t, id) && forall j: nat :: Seen(t, j) ==> id !in Dead(t.history[j])
    {
      if id == s.history[f].id {
        assert Reached(t, f);
        forall j: nat | Seen(t, j) ensures id !in Dead(t.history[j]) {
          if id in Dead(s.history[j]) { SupersedingEntry(s, f, j); }
        }
      } else {
        var i: nat :| Reached(s, i) && s.history[i].id == id;
        assert Reached(t, i);
        forall j: nat | Seen(t, j) ensures id !in Dead(t.history[j]) { assert j == f || Seen(s, j); }
      }
    }
  }

  lemma ApplyNoStale(s: State)
    requires Shape(s) && NoStale(s) && Enabled(s, Apply(true))
    ensures NoStale(Step(s, Apply(true)))
  {
    var t := Step(s, Apply(true));
    var p := s.pointer;
    forall id | id in t.parts
      ensures FromReached(t, id) && forall j: nat :: Seen(t, j) ==> id !in Dead(t.history[j])
    {
      if id in s.parts {
        var i: nat :| Reached(s, i) && s.history[i].id == id;
        assert Reached(t, i);
        forall j: nat | Seen(t, j) ensures id !in Dead(t.history[j]) { assert j == p || Seen(s, j); }
      } else {
        assert id == s.history[p].id && Reached(t, p);
        forall j: nat | Seen(t, j) ensures id !in Dead(t.history[j]) {
          if id in Dead(s.history[j]) { SupersedingEntry(s, p, j); }
        }
      }
    }
  }

  /** A list of the parts live in a prefix has nothing stale exactly when no visible later entry supersedes one of them. */
  lemma LoadedNoStaleIff(s: State, t: State, n: nat)
    requires Shape(s) && n <= |s.history| && t.history == s.history && t.me == s.me
    requires Ids(t.parts) == LiveIds(s.history[..n]) && t.pointer == n
    ensures NoStale(t) <==> forall j: nat :: n <= j && Seen(t, j) ==> Dead(s.history[j]) !! LiveIds(s.history[..n])
  {
    if forall j: nat :: n <= j && Seen(t, j) ==> Dead(s.history[j]) !! LiveIds(s.history[..n]) {
      forall id | id in t.parts
        ensures FromReached(t, id) && forall j: nat :: Seen(t, j) ==> id !in Dead(t.history[j])
      {
        assert id in Ids(t.parts);
        var i := LiveComesFromPrefix(s.history, n, id);
        assert Reached(t, i);
      }
    } else {
      var j: nat :| n <= j && Seen(t, j) && !(Dead(s.history[j]) !! LiveIds(s.history[..n]));
      var id :| id in Dead(s.history[j]) && id in LiveIds(s.history[..n]);
      assert id in Ids(t.parts);
    }
  }

  lemma OtherNoStale(s: State, a: Action)
    requires Shape(s) && NoStale(s) && Enabled(s, a)
    requires a.Truncate? || a.BootRead? || a.Collect?
    ensures NoStale(Step(s, a))
  {
    var t := Step(s, a);
    forall id | id in t.parts
      ensures FromReached(t, id) && forall j: nat :: Seen(t, j) ==> id !in Dead(t.history[j])
    {
      var i: nat :| Reached(s, i) && s.history[i].id == id;
      assert Reached(t, i);
      forall j: nat | Seen(t, j) ensures id !in Dead(t.history[j]) { assert Seen(s, j); }
    }
  }

  lemma InstallNoStaleIff(s: State, loaded: seq<Id>)
    requires Shape(s) && Enabled(s, BootInstall(loaded, {}, true))
    ensures NoStale(Step(s, BootInstall(loaded, {}, true))) <==> SnapshotUnmerged(s)
  {
    var t := Step(s, BootInstall(loaded, {}, true));
    LoadedNoStaleIff(s, t, s.boot.value);
    assert forall j: nat :: s.boot.value <= j ==> (Seen(t, j) <==> Own(s, j) && s.inflight != Some(j));
  }

  lemma StepNoStale(s: State, a: Action)
    requires Shape(s) && NoStale(s) && s.pending == map[] && Enabled(s, a) && FaultFree(a) && !a.BootInstall?
    ensures NoStale(Step(s, a))
  {
    match a {
      case OtherCommit(e) => CommitNoStale(s, a);
      case OwnCommit(e) => CommitNoStale(s, a);
      case Publish => PublishNoStale(s);
      case Apply(fetched) => ApplyNoStale(s);
      case Restart(loaded, failed) =>
        assert s.history[..|s.history|] == s.history;
        LoadedNoStaleIff(s, Step(s, a), |s.history|);
      case Retry(id, _, _) =>
      case _ => OtherNoStale(s, a);
    }
  }

  lemma StepNoDup(s: State, a: Action)
    requires NoDup(s.parts) && s.pending == map[] && Enabled(s, a)
    ensures NoDup(Step(s, a).parts)
  {
    match a {
      case Publish => WithoutNoDup(s.parts, Dead(s.history[s.inflight.value]));
      case Apply(_) => WithoutNoDup(s.parts, Dead(s.history[s.pointer]));
      case Collect(recent) => WithoutNoDup(s.parts, Ids(s.parts) - (LiveIds(s.history) + recent));
      case _ =>
    }
  }

  /** Every own entry published since the running bootstrap read its snapshot is dead, and superseded nothing in it. */
  ghost predicate Settled(s: State) { SnapshotCurrent(s) && SnapshotUnmerged(s) }

  lemma InstallExactIff(s: State, loaded: seq<Id>)
    requires Exact(s) && Enabled(s, BootInstall(loaded, {}, true))
    ensures Exact(Step(s, BootInstall(loaded, {}, true))) <==> Settled(s)
  {
    StepKeepsShape(s, BootInstall(loaded, {}, true));
    InstallRemembersIffCurrent(s, loaded, {}, true);
    InstallNoStaleIff(s, loaded);
  }

  /** With working fetches only one step can spoil the list, installing a snapshot, and it does so exactly when the snapshot is not settled. */
  lemma StepExactIff(s: State, a: Action)
    requires Exact(s) && Enabled(s, a) && FaultFree(a)
    ensures Exact(Step(s, a)) <==> (a.BootInstall? ==> Settled(s))
  {
    if a.BootInstall? {
      InstallExactIff(s, a.loaded);
    } else {
      StepKeepsShape(s, a);
      StepRemembers(s, a);
      StepNoStale(s, a);
      StepNoDup(s, a);
    }
  }

  // ---------- runs ----------

  function Start(me: NodeId): State { State(me, [], 0, [], map[], 0, None, None) }

  ghost function Run(me: NodeId, acts: seq<Action>): (s: State)
    ensures Shape(s)
  {
    if acts == [] then Start(me)
    else
      var s := Run(me, acts[..|acts| - 1]);
      var a := acts[|acts| - 1];
      if Enabled(s, a) then
        StepKeepsShape(s, a);
        Step(s, a)
      else s
  }

  /** Each bootstrap installed its snapshot before a later own part was published. */
  ghost predicate CurrentRun(me: NodeId, acts: seq<Action>)
  {
    acts == [] ||
    var s := Run(me, acts[..|acts| - 1]);
    var a := acts[|acts| - 1];
    CurrentRun(me, acts[..|acts| - 1]) && (Enabled(s, a) && a.BootInstall? ==> SnapshotCurrent(s))
  }

  ghost predicate RememberedThroughout(me: NodeId, acts: seq<Action>)
  {
    Remembers(Run(me, acts)) && (acts == [] || RememberedThroughout(me, acts[..|acts| - 1]))
  }

  /**
   Whatever fetches fail, in any run: at every moment each live part that the replica has
   seen is listed or waiting for a retry, if and only if no bootstrap overwrote an own part
   published after its snapshot was read.
   */
  lemma {:induction false} NothingForgottenIffCurrent(me: NodeId, acts: seq<Action>)
    ensures RememberedThroughout(me, acts) <==> CurrentRun(me, acts)
  {
    if acts != [] {
      var before := acts[..|acts| - 1];
      NothingForgottenIffCurrent(me, before);
      var s := Run(me, before);
      var a := acts[|acts| - 1];
      assert CurrentRun(me, before) ==> Remembers(s);
      if Remembers(s) && Enabled(s, a) {
        if a.BootInstall? { InstallRemembersIffCurrent(s, a.loaded, a.failed, a.moved); }
        else { StepRemembers(s, a); }
      }
    }
  }

  /** So a replica that has caught up has every live part, listed or pending. */
  lemma CaughtUpForgetsNothing(me: NodeId, acts: seq<Action>, id: Id)
    requires CurrentRun(me, acts)
    requires var s := Run(me, acts); s.pointer == |s.history| && s.inflight.None? && id in LiveIds(s.history)
    ensures id in Run(me, acts).parts || id in Run(me, acts).pending
  {
    var s := Run(me, acts);
    NothingForgottenIffCurrent(me, acts);
    assert s.history[..|s.history|] == s.history;
    var i := LiveComesFromPrefix(s.history, |s.history|, id);
    assert Seen(s, i);
  }

  ghost predicate FaultFreeRun(me: NodeId, acts: seq<Action>)
  {
    acts == [] ||
    var s := Run(me, acts[..|acts| - 1]);
    var a := acts[|acts| - 1];
    FaultFreeRun(me, acts[..|acts| - 1]) && (Enabled(s, a) ==> FaultFree(a))
  }

  ghost predicate SettledRun(me: NodeId, acts: seq<Action>)
  {
    acts == [] ||
    var s := Run(me, acts[..|acts| - 1]);
    var a := acts[|acts| - 1];
    SettledRun(me, acts[..|acts| - 1]) && (Enabled(s, a) && a.BootInstall? ==> Settled(s))
  }

  ghost predicate ExactThroughout(me: NodeId, acts: seq<Action>)
  {
    Exact(Run(me, acts)) && (acts == [] || ExactThroughout(me, acts[..|acts| - 1]))
  }

  /**
   In every run with working fetches: the list is, at every moment, exactly what the replica
   has seen and nothing has superseded, each part once, if and only if every snapshot was
   settled when it was installed.
   */
  lemma {:induction false} ExactThroughoutIffSettled(me: NodeId, acts: seq<Action>)
    requires FaultFreeRun(me, acts)
    ensures ExactThroughout(me, acts) <==> SettledRun(me, acts)
  {
    if acts != [] {
      var before := acts[..|acts| - 1];
      ExactThroughoutIffSettled(me, before);
      var s := Run(me, before);
      var a := acts[|acts| - 1];
      assert SettledRun(me, before) ==> Exact(s);
      if Exact(s) && Enabled(s, a) { StepExactIff(s, a); }
    }
  }

  /**
   With working fetches and settled snapshots, a replica at the tail of the log lists exactly
   the fold of the log, each part once, whatever truncations, bootstraps, own entries,
   restarts and garbage collections came before.
   */
  lemma CaughtUpIsExact(me: NodeId, acts: seq<Action>)
    requires FaultFreeRun(me, acts) && SettledRun(me, acts)
    requires var s := Run(me, acts); s.pointer == |s.history| && s.inflight.None?
    ensures var s := Run(me, acts);
            NoDup(s.parts) && Ids(s.parts) == LiveIds(s.history) && s.pending == map[]
  {
    var s := Run(me, acts);
    ExactThroughoutIffSettled(me, acts);
    assert s.history[..|s.history|] == s.history;
    forall id | id in LiveIds(s.history) ensures id in s.parts {
      var i := LiveComesFromPrefix(s.history, |s.history|, id);
      assert Seen(s, i);
    }
    forall id | id in s.parts ensures id in LiveIds(s.history) {
      var i: nat :| Reached(s, i) && s.history[i].id == id;
      forall k | 0 <= k < |s.history| ensures id !in Dead(s.history[k]) { assert Seen(s, k); }
      LiveInPrefix(s.history, |s.history|, i);
    }
  }

  // ---------- why the fetches must work ----------

  /** Deferring a merge leaves stale parts listed exactly when a superseded part is listed. */
  lemma DeferredMergeStaleIff(s: State)
    requires Shape(s) && NoStale(s) && Enabled(s, Apply(false))
    requires !Own(s, s.pointer)
    ensures NoStale(Step(s, Apply(false))) <==> Ids(s.parts) !! Dead(s.history[s.pointer])
  {
    var t := Step(s, Apply(false));
    var p := s.pointer;
    assert Seen(t, p);
    if Ids(s.parts) !! Dead(s.history[p]) {
      forall id | id in t.parts
        ensures FromReached(t, id) && forall j: nat :: Seen(t, j) ==> id !in Dead(t.history[j])
      {
        assert id in Ids(s.parts);
        var i: nat :| Reached(s, i) && s.history[i].id == id;
        assert Reached(t, i);
        forall j: nat | Seen(t, j) ensures id !in Dead(t.history[j]) { assert j == p || Seen(s, j); }
      }
    } else {
      var id :| id in Ids(s.parts) && id in Dead(s.history[p]);
      assert id in t.parts;
    }
  }

  /** A successful retry lists its part twice exactly when the part is already listed. */
  lemma RetryDuplicatesIff(s: State, id: Id, checked: bool)
    requires NoDup(s.parts) && Enabled(s, Retry(id, checked, true)) && (checked ==> id in LiveIds(s.history))
    ensures NoDup(Step(s, Retry(id, checked, true)).parts) <==> id !in s.parts || id in s.pending[id]
  {
    var rest := Without(s.parts, Ids(s.pending[id]));
    WithoutNoDup(s.parts, Ids(s.pending[id]));
    var t := rest + [id];
    if id in rest {
      var i :| 0 <= i < |rest| && rest[i] == id;
      assert t[i] == t[|rest|];
    }
  }

  /** A retry whose existence check failed lists a stale part exactly when a visible entry has superseded it. */
  lemma UncheckedRetryStaleIff(s: State, id: Id)
    requires NoStale(s) && Enabled(s, Retry(id, false, true))
    ensures NoStale(Step(s, Retry(id, false, true))) <==>
            FromReached(s, id) && forall j: nat :: Seen(s, j) ==> id !in Dead(s.history[j])
  {
    var t := Step(s, Retry(id, false, true));
    forall x ensures FromReached(t, x) <==> FromReached(s, x) { SameReached(s, t, x); }
    assert forall j: nat :: Seen(t, j) <==> Seen(s, j);
    assert id in t.parts;
  }

  lemma SameReached(s: State, t: State, id: Id)
    requires t.history == s.history && t.pointer == s.pointer && t.me == s.me
    ensures FromReached(t, id) <==> FromReached(s, id)
  {
    assert forall i: nat :: Reached(t, i) <==> Reached(s, i);
  }

  lemma RunExtends(me: NodeId, acts: seq<Action>, a: Action)
    ensures var s := Run(me, acts);
            Run(me, acts + [a]) == if Enabled(s, a) then Step(s, a) else s
  {
    assert (acts + [a])[..|acts|] == acts;
  }

  const OWN_PUT := LogEntry(false, 7, 0, [], 0)

  const DURING_BOOTSTRAP := State(0, [OWN_PUT], 0, [7], map[], 0, None, Some(0))

  lemma OneOwnPut()
    ensures Fold([OWN_PUT]) == map[7 := 0] && [OWN_PUT][..0] == [] && LiveIds([OWN_PUT][..0]) == {}
  {
    assert [OWN_PUT][..0] == [];
  }

  /** Node 0 can publish an own part while a bootstrap with an older snapshot is running. */
  lemma PublishDuringBootstrap() returns (acts: seq<Action>)
    ensures Run(0, acts) == DURING_BOOTSTRAP
  {
    assert Run(0, []) == Start(0);
    hide Run, Shape;
    RunExtends(0, [], BootRead);
    var a1 := [] + [BootRead];
    RunExtends(0, a1, OwnCommit(OWN_PUT));
    var a2 := a1 + [OwnCommit(OWN_PUT)];
    assert [] + [OWN_PUT] == [OWN_PUT];
    assert Run(0, a2) == State(0, [OWN_PUT], 0, [], map[], 0, Some(0), Some(0));
    RunExtends(0, a2, Publish);
    acts := a2 + [Publish];
    assert Replace([], OWN_PUT) == [7];
  }

  /**
   From there the snapshot is installed over it and the log entry is skipped as own: the
   replica is at the tail, with nothing in flight or pending, and without the live part 7.
   */
  lemma BootstrapForgetsOwnPart()
    ensures Enabled(DURING_BOOTSTRAP, BootInstall([], {}, true))
    ensures var s := Step(DURING_BOOTSTRAP, BootInstall([], {}, true));
            Enabled(s, Apply(true))
            && var t := Step(s, Apply(true));
            t.pointer == |t.history| && t.inflight.None? && 7 in LiveIds(t.history)
            && 7 !in t.parts && 7 !in t.pending
  {
    OneOwnPut();
  }

  const PUT_1 := LogEntry(false, 1, 0, [], 9)
  const MERGE_2 := LogEntry(true, 2, 0, [1], 9)
  const MERGE_3 := LogEntry(true, 3, 0, [2], 9)

  lemma ThreeEntries()
    ensures Fold([PUT_1, MERGE_2, MERGE_3]).Keys == {3}
  {
    var h := [PUT_1, MERGE_2, MERGE_3];
    assert h[..2] == [PUT_1, MERGE_2] && h[..2][..1] == [PUT_1] && h[..2][..1][..0] == [];
    assert Fold([PUT_1]) == map[1 := 0];
    assert Fold([PUT_1, MERGE_2]) == map[2 := 0];
    assert Fold(h) == map[3 := 0];
  }

  lemma TwoEntries()
    ensures Fold([PUT_1]).Keys == {1} && Fold([PUT_1, MERGE_2]).Keys == {2}
  {
    assert [PUT_1, MERGE_2][..1] == [PUT_1] && [PUT_1][..0] == [];
  }

  /** The state of replica 0 with the given log, list and pending parts, its pointer at `p` and nothing else going on. */
  function At(h: seq<LogEntry>, parts: seq<Id>, pending: map<Id, seq<Id>>, p: nat): State
  {
    State(0, h, 0, parts, pending, p, None, None)
  }

  lemma StartIs()
    ensures Run(0, []) == At([], [], map[], 0)
  {}

  /** Replica 0 learns of the next entry of node 9 and processes it. */
  lemma CommitAndApply(acts: seq<Action>, h: seq<LogEntry>, parts: seq<Id>, pending: map<Id, seq<Id>>, e: LogEntry, fetched: bool)
    requires Run(0, acts) == At(h, parts, pending, |h|) && e.node == 9 && Appendable(h, e)
    ensures Run(0, acts + [OtherCommit(e)] + [Apply(fetched)]) ==
            At(h + [e], if fetched then Replace(parts, e) else parts,
               if fetched then pending - Dead(e) else pending[e.id := e.olds], |h| + 1)
  {
    hide Run, Shape, Replace, Dead, Appendable;
    RunExtends(0, acts, OtherCommit(e));
    RunExtends(0, acts + [OtherCommit(e)], Apply(fetched));
    assert (h + [e])[|h|] == e;
  }

  /** One more action of a run of replica 0, given by its effect. */
  lemma OneStep(acts: seq<Action>, s: State, a: Action, t: State)
    requires Run(0, acts) == s && Enabled(s, a) && Step(s, a) == t
    ensures Run(0, acts + [a]) == t
  {
    hide Run, Enabled, Step;
    RunExtends(0, acts, a);
  }

  /** Part 1 could not be fetched. */
  const DEFERRED := At([PUT_1], [], map[1 := []], 1)

  lemma DeferredRun() returns (acts: seq<Action>)
    ensures Run(0, acts) == DEFERRED
  {
    hide Run, Shape;
    StartIs();
    var none: map<Id, seq<Id>> := map[];
    assert [] + [PUT_1] == [PUT_1] && none[1 := []] == map[1 := []];
    Appends();
    CommitAndApply([], [], [], map[], PUT_1, false);
    acts := [] + [OtherCommit(PUT_1)] + [Apply(false)];
  }

  lemma LoadSteps()
    ensures Enabled(DEFERRED, BootRead) && Step(DEFERRED, BootRead) == DEFERRED.(boot := Some(1))
    ensures var s := DEFERRED.(boot := Some(1));
            Enabled(s, BootInstall([1], {}, true)) && Step(s, BootInstall([1], {}, true)) == At([PUT_1], [1], map[1 := []], 1)
  {
    hide Fold;
    TwoEntries();
    assert [PUT_1][..1] == [PUT_1] && Ids([1]) == {1} - {};
  }

  lemma SecondListing()
    ensures var s := At([PUT_1], [1], map[1 := []], 1);
            Enabled(s, Retry(1, true, true)) && Step(s, Retry(1, true, true)) == At([PUT_1], [1, 1], map[], 1)
  {
    hide Fold;
    TwoEntries();
    assert [PUT_1][..1] == [PUT_1];
    assert Without([1], Ids([])) == [1] by { assert [1][..0] == []; }
  }

  /** A run: part 1 cannot be fetched, a bootstrap loads it, and the retry lists it again. */
  lemma RetryDuplicatesRun() returns (acts: seq<Action>)
    ensures Run(0, acts).parts == [1, 1]
  {
    hide Run, Enabled, Step;
    acts := DeferredRun();
    LoadSteps();
    SecondListing();
    OneStep(acts, DEFERRED, BootRead, DEFERRED.(boot := Some(1)));
    acts := acts + [BootRead];
    OneStep(acts, DEFERRED.(boot := Some(1)), BootInstall([1], {}, true), At([PUT_1], [1], map[1 := []], 1));
    acts := acts + [BootInstall([1], {}, true)];
    OneStep(acts, At([PUT_1], [1], map[1 := []], 1), Retry(1, true, true), At([PUT_1], [1, 1], map[], 1));
    acts := acts + [Retry(1, true, true)];
  }

  /** A run: part 1 is listed, the merge into 2 is deferred and then merged away itself, and part 1 stays listed beside 3 at the tail. */
  lemma SupersededDeferralLeavesStale() returns (acts: seq<Action>)
    ensures var t := Run(0, acts);
            t.pointer == |t.history| && t.parts == [1, 3] && LiveIds(t.history) == {3} && t.pending == map[]
  {
    hide Run, Shape, Fold, Appendable, Replace;
    StartIs();
    Appends();
    CommitAndApply([], [], [], map[], PUT_1, true);
    var a2 := [] + [OtherCommit(PUT_1)] + [Apply(true)];
    Lists();
    var none: map<Id, seq<Id>> := map[];
    assert [] + [PUT_1] == [PUT_1] && none - Dead(PUT_1) == none;
    CommitAndApply(a2, [PUT_1], [1], map[], MERGE_2, false);
    var a4 := a2 + [OtherCommit(MERGE_2)] + [Apply(false)];
    assert [PUT_1] + [MERGE_2] == [PUT_1, MERGE_2] && none[2 := [1]] == map[2 := [1]];
    RunExtends(0, a4, OtherCommit(MERGE_3));
    var a5 := a4 + [OtherCommit(MERGE_3)];
    assert [PUT_1, MERGE_2] + [MERGE_3] == [PUT_1, MERGE_2, MERGE_3];
    ThreeEntries();
    RunExtends(0, a5, Retry(2, true, true));
    var a6 := a5 + [Retry(2, true, true)];
    assert map[2 := [1]] - {2} == map[];
    assert Run(0, a6) == At([PUT_1, MERGE_2, MERGE_3], [1], map[], 2);
    RunExtends(0, a6, Apply(true));
    acts := a6 + [Apply(true)];
    assert none - Dead(MERGE_3) == none;
  }

  const BOTH_DEFERRED := At([PUT_1, MERGE_2], [], map[1 := [], 2 := [1]], 2)

  lemma RetryBoth()
    ensures var s := At([PUT_1, MERGE_2], [2], map[1 := []], 2);
            && Enabled(BOTH_DEFERRED, Retry(2, true, true)) && Step(BOTH_DEFERRED, Retry(2, true, true)) == s
            && Enabled(s, Retry(1, false, true)) && Step(s, Retry(1, false, true)) == At([PUT_1, MERGE_2], [2, 1], map[], 2)
  {
    hide Fold;
    TwoEntries();
    assert map[1 := [], 2 := [1]] - {2} == map[1 := []];
    assert Without([2], Ids([])) == [2] by { assert [2][..0] == []; }
  }

  /** A run: neither part 1 nor the merge of it into 2 can be fetched at first; then 2 is, and 1 as well, because the check for it failed. */
  lemma UncheckedRetryLeavesStale() returns (acts: seq<Action>)
    ensures var t := Run(0, acts);
            t.pointer == |t.history| && t.parts == [2, 1] && LiveIds(t.history) == {2} && t.pending == map[]
  {
    hide Run, Shape, Fold, Appendable, Replace, Enabled, Step;
    var a2 := DeferredRun();
    Appends();
    CommitAndApply(a2, [PUT_1], [], map[1 := []], MERGE_2, false);
    acts := a2 + [OtherCommit(MERGE_2)] + [Apply(false)];
    assert [PUT_1] + [MERGE_2] == [PUT_1, MERGE_2];
    TwoEntries();
    RetryBoth();
    var s := At([PUT_1, MERGE_2], [2], map[1 := []], 2);
    OneStep(acts, BOTH_DEFERRED, Retry(2, true, true), s);
    acts := acts + [Retry(2, true, true)];
    OneStep(acts, s, Retry(1, false, true), At([PUT_1, MERGE_2], [2, 1], map[], 2));
    acts := acts + [Retry(1, false, true)];
  }

  lemma Appends()
    ensures Appendable([], PUT_1) && Appendable([PUT_1], MERGE_2) && Appendable([PUT_1, MERGE_2], MERGE_3)
  {
    assert [PUT_1][0] == PUT_1 && [PUT_1, MERGE_2][1] == MERGE_2;
  }

  lemma Lists()
    ensures Replace([], PUT_1) == [1] && Replace([1], MERGE_3) == [1, 3]
  {
    assert [1][..0] == [];
  }

  // ---------- an own merge during a bootstrap ----------

  const OWN_MERGE := LogEntry(true, 8, 0, [7], 0)
  const OWN_NEXT := LogEntry(true, 9, 0, [8], 0)
  const OWN_LOG := [OWN_PUT, OWN_MERGE, OWN_NEXT]

  lemma OwnEntries()
    ensures Appendable([], OWN_PUT) && Appendable([OWN_PUT], OWN_MERGE) && Appendable([OWN_PUT, OWN_MERGE], OWN_NEXT)
    ensures Replace([], OWN_PUT) == [7] && Replace([7], OWN_MERGE) == [8] && Replace([7], OWN_NEXT) == [7, 9]
    ensures [] + [OWN_PUT] == [OWN_PUT] && [OWN_PUT] + [OWN_MERGE] == [OWN_PUT, OWN_MERGE] && [OWN_PUT, OWN_MERGE] + [OWN_NEXT] == OWN_LOG
  {
    assert [OWN_PUT][0] == OWN_PUT && [OWN_PUT, OWN_MERGE][1] == OWN_MERGE;
    assert [7][..0] == [];
  }

  lemma OwnLive()
    ensures LiveIds(OWN_LOG) == {9} && OWN_LOG[..1] == [OWN_PUT] && LiveIds(OWN_LOG[..1]) == {7}
  {
    assert OWN_LOG[..2] == [OWN_PUT, OWN_MERGE] && OWN_LOG[..2][..1] == [OWN_PUT] && OWN_LOG[..1] == [OWN_PUT] && [OWN_PUT][..0] == [];
    assert Fold([OWN_PUT]) == map[7 := 0];
    assert Fold([OWN_PUT, OWN_MERGE]) == map[8 := 0];
    assert Fold(OWN_LOG) == map[9 := 0];
  }

  /** Replica 0 commits an own entry and publishes it. */
  lemma CommitAndPublish(acts: seq<Action>, s: State, e: LogEntry)
    requires Run(0, acts) == s && s.me == 0 && e.node == 0 && s.inflight.None? && Appendable(s.history, e)
    ensures Run(0, acts + [OwnCommit(e)] + [Publish]) == s.(history := s.history + [e], parts := Replace(s.parts, e))
  {
    hide Run, Shape, Replace, Dead, Appendable;
    RunExtends(0, acts, OwnCommit(e));
    RunExtends(0, acts + [OwnCommit(e)], Publish);
    assert (s.history + [e])[|s.history|] == e;
  }

  /** One own part, then a snapshot of it, then an own merge of it, and the next merge on its way. */
  lemma MergeDuringBootstrap() returns (acts: seq<Action>)
    ensures Run(0, acts) == State(0, OWN_LOG, 0, [8], map[], 0, Some(2), Some(1))
    ensures forall i :: 0 <= i < |acts| ==> FaultFree(acts[i]) && !acts[i].BootInstall?
  {
    hide Run, Shape, Replace, Dead, Appendable;
    StartIs();
    OwnEntries();
    CommitAndPublish([], At([], [], map[], 0), OWN_PUT);
    var a1 := [] + [OwnCommit(OWN_PUT)] + [Publish];
    RunExtends(0, a1, BootRead);
    var a2 := a1 + [BootRead];
    var s2 := State(0, [OWN_PUT], 0, [7], map[], 0, None, Some(1));
    CommitAndPublish(a2, s2, OWN_MERGE);
    var a3 := a2 + [OwnCommit(OWN_MERGE)] + [Publish];
    RunExtends(0, a3, OwnCommit(OWN_NEXT));
    acts := a3 + [OwnCommit(OWN_NEXT)];
  }

  lemma {:induction false} CalmRun(me: NodeId, acts: seq<Action>)
    requires forall i :: 0 <= i < |acts| ==> FaultFree(acts[i]) && !acts[i].BootInstall?
    ensures FaultFreeRun(me, acts) && CurrentRun(me, acts)
  {
    if acts != [] { CalmRun(me, acts[..|acts| - 1]); }
  }

  lemma CalmExtends(me: NodeId, acts: seq<Action>, a: Action)
    requires FaultFreeRun(me, acts) && CurrentRun(me, acts) && FaultFree(a)
    requires a.BootInstall? ==> SnapshotCurrent(Run(me, acts))
    ensures FaultFreeRun(me, acts + [a]) && CurrentRun(me, acts + [a])
  {
    assert (acts + [a])[..|acts|] == acts;
  }

  const MERGING := State(0, OWN_LOG, 0, [8], map[], 0, Some(2), Some(1))

  lemma MergingIsCurrent()
    ensures SnapshotCurrent(MERGING) && Enabled(MERGING, BootInstall([7], {}, true))
  {
    OwnLive();
    assert OWN_LOG[2] == OWN_NEXT && 8 in Dead(OWN_LOG[2]);
    assert Dies(MERGING, 8);
  }

  const REINSTALLED := State(0, OWN_LOG, 0, [7], map[], 1, Some(2), None)

  lemma InstallStep()
    ensures Enabled(MERGING, BootInstall([7], {}, true)) && Step(MERGING, BootInstall([7], {}, true)) == REINSTALLED
  {
    hide SnapshotCurrent, Fold;
    MergingIsCurrent();
  }

  lemma LastSteps()
    ensures Enabled(REINSTALLED, Publish) && Step(REINSTALLED, Publish) == At(OWN_LOG, [7, 9], map[], 1)
    ensures forall p :: 1 <= p < 3 ==> Enabled(At(OWN_LOG, [7, 9], map[], p), Apply(true))
                                       && Step(At(OWN_LOG, [7, 9], map[], p), Apply(true)) == At(OWN_LOG, [7, 9], map[], p + 1)
  {
    hide Replace;
    OwnEntries();
    assert OWN_LOG[1] == OWN_MERGE && OWN_LOG[2] == OWN_NEXT;
  }

  /** One more fault-free action of a run, given by its effect. */
  lemma CalmStep(acts: seq<Action>, s: State, a: Action, t: State)
    requires Run(0, acts) == s && FaultFreeRun(0, acts) && CurrentRun(0, acts)
    requires Enabled(s, a) && Step(s, a) == t && FaultFree(a) && (a.BootInstall? ==> SnapshotCurrent(s))
    ensures Run(0, acts + [a]) == t && FaultFreeRun(0, acts + [a]) && CurrentRun(0, acts + [a])
  {
    hide Run, FaultFreeRun, CurrentRun, SnapshotCurrent, Enabled, Step;
    RunExtends(0, acts, a);
    CalmExtends(0, acts, a);
  }

  /**
   A run with working fetches that forgets nothing: the snapshot brings back part 7, which an
   own merge has superseded, and it stays listed beside 9 at the tail.
   */
  lemma MergedSnapshotLeavesStale() returns (acts: seq<Action>)
    ensures FaultFreeRun(0, acts) && CurrentRun(0, acts)
    ensures Run(0, acts) == At(OWN_LOG, [7, 9], map[], 3) && LiveIds(OWN_LOG) == {9}
  {
    hide Run, Shape, FaultFreeRun, CurrentRun, SnapshotCurrent, Fold, Enabled, Step;
    acts := MergeDuringBootstrap();
    CalmRun(0, acts);
    MergingIsCurrent();
    OwnLive();
    InstallStep();
    LastSteps();
    var t := At(OWN_LOG, [7, 9], map[], 1);
    CalmStep(acts, MERGING, BootInstall([7], {}, true), REINSTALLED);
    acts := acts + [BootInstall([7], {}, true)];
    CalmStep(acts, REINSTALLED, Publish, t);
    acts := acts + [Publish];
    CalmStep(acts, t, Apply(true), At(OWN_LOG, [7, 9], map[], 2));
    acts := acts + [Apply(true)];
    CalmStep(acts, At(OWN_LOG, [7, 9], map[], 2), Apply(true), At(OWN_LOG, [7, 9], map[], 3));
    acts := acts + [Apply(true)];
  }
}
