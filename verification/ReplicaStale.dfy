/** Superseded parts under failing fetches. */
module ReplicaStale {
  // A merge that cannot be fetched leaves the parts it supersedes listed until a retry
  // replaces them. Here: a superseded part stays listed only while a deferred merge is still
  // to replace it, in every run, exactly as long as no step drops such a merge.

  import opened Prelude
  import opened PartLog
  import opened Replica
  import opened ReplicaRuns

  /** A visible entry has superseded the part. */
  ghost predicate Stale(s: State, o: Id) { exists j: nat :: Seen(s, j) && o in Dead(s.history[j]) }

  /** A deferred merge will replace the part when it is fetched. */
  ghost predicate Due(s: State, o: Id) { exists p :: p in s.pending && o in s.pending[p] }

  /** Every superseded part that is listed is due to be replaced. */
  ghost predicate StaleIsDue(s: State) { forall o :: o in s.parts && Stale(s, o) ==> Due(s, o) }

  /** Entry j, processed and of another node, adds part p and supersedes part o. */
  predicate Defers(s: State, j: nat, p: Id, o: Id)
  {
    j < s.pointer && j < |s.history| && s.history[j].node != s.me && s.history[j].id == p && o in Dead(s.history[j])
  }

  /** What is deferred comes from such entries. */
  ghost predicate Deferrals(s: State)
  {
    forall p, o :: p in s.pending && o in s.pending[p] ==> exists j: nat :: Defers(s, j, p, o)
  }

  /** Without the deferrals in `dropped` nothing would replace the part any more. */
  ghost predicate Orphan(s: State, dropped: set<Id>, o: Id)
  {
    Due(s, o) && forall p :: p in s.pending && o in s.pending[p] ==> p in dropped
  }

  lemma DueIsStale(s: State, o: Id)
    requires Shape(s) && Deferrals(s) && Due(s, o)
    ensures Stale(s, o)
  {
    var p :| p in s.pending && o in s.pending[p];
    var j: nat :| Defers(s, j, p, o);
    assert Seen(s, j);
  }

  // ---------- deferrals, in every run ----------

  lemma StepKeepsDeferrals(s: State, a: Action)
    requires Shape(s) && Deferrals(s) && Enabled(s, a)
    ensures Deferrals(Step(s, a))
  {
    var t := Step(s, a);
    forall p, o | p in t.pending && o in t.pending[p] ensures exists j: nat :: Defers(t, j, p, o) {
      if a.Apply? && !a.fetched && s.history[s.pointer].node != s.me && p == s.history[s.pointer].id {
        assert Defers(t, s.pointer, p, o);
      } else {
        assert p in s.pending && o in s.pending[p];
        var j: nat :| Defers(s, j, p, o);
        assert Defers(t, j, p, o);
      }
    }
  }

  lemma {:induction false} RunDeferrals(me: NodeId, acts: seq<Action>)
    ensures Deferrals(Run(me, acts))
  {
    if acts != [] {
      var s := Run(me, acts[..|acts| - 1]);
      RunDeferrals(me, acts[..|acts| - 1]);
      if Enabled(s, acts[|acts| - 1]) { StepKeepsDeferrals(s, acts[|acts| - 1]); }
    }
  }

  // ---------- one deferral and its retry ----------

  /**
   An entry that could not be fetched when it was processed and is fetched by a retry leaves
   the list as if it had been fetched at once: without what it supersedes, and with its part.
   */
  lemma DeferThenRetry(s: State, checked: bool)
    requires Shape(s) && Enabled(s, Apply(false)) && !Own(s, s.pointer)
    requires checked ==> s.history[s.pointer].id in LiveIds(s.history)
    ensures var e := s.history[s.pointer];
            var t := Step(s, Apply(false));
            Enabled(t, Retry(e.id, checked, true))
            && var r := Step(t, Retry(e.id, checked, true));
            && Ids(r.parts) == Ids(s.parts) - Dead(e) + {e.id} && Ids(r.parts) == Ids(Step(s, Apply(true)).parts)
            && e.id !in r.pending && r.pointer == s.pointer + 1
  {
    var e := s.history[s.pointer];
    assert Ids(e.olds) == Dead(e);
    OldsAreOlder(s, s.pointer);
  }

  /** An entry does not supersede its own part. */
  lemma OldsAreOlder(s: State, i: nat)
    requires Shape(s) && i < |s.history|
    ensures s.history[i].id !in Dead(s.history[i])
  {
    if s.history[i].id in Dead(s.history[i]) { SupersedingEntry(s, i, i); }
  }

  // ---------- one step ----------

  /** The step leaves no listed part without the deferral that would replace it, and lists none that is superseded. */
  ghost predicate Prompt(s: State, a: Action)
    requires Enabled(s, a)
  {
    match a
    case Apply(true) => Own(s, s.pointer) || forall o :: o in s.parts && o !in Dead(s.history[s.pointer]) ==> !Orphan(s, Dead(s.history[s.pointer]), o)
    case Retry(id, true, _) => id in LiveIds(s.history) || forall o :: o in s.parts ==> !Orphan(s, {id}, o)
    case Retry(id, false, true) => Stale(s, id) ==> Due(s, id)
    case BootInstall(loaded, _, _) =>
      forall i: nat :: s.boot.value <= i && Own(s, i) && s.inflight != Some(i) ==> Dead(s.history[i]) !! Ids(loaded)
    case BootFail(failed) => forall o :: o in s.parts ==> !Orphan(s, failed, o)
    case _ => true
  }

  /** Superseded before and after: the same entries are visible. */
  lemma SameStale(s: State, t: State, o: Id)
    requires forall j: nat :: Seen(t, j) <==> Seen(s, j)
    requires forall j: nat :: Seen(s, j) ==> j < |t.history| && t.history[j] == s.history[j]
    ensures Stale(t, o) <==> Stale(s, o)
  {
    if Stale(s, o) {
      var j: nat :| Seen(s, j) && o in Dead(s.history[j]);
      assert Seen(t, j);
    }
  }

  lemma CommitKeepsDue(s: State, a: Action)
    requires Shape(s) && StaleIsDue(s) && Enabled(s, a) && (a.OtherCommit? || a.OwnCommit?)
    ensures StaleIsDue(Step(s, a))
  {
    var t := Step(s, a);
    assert forall j: nat :: Seen(t, j) <==> Seen(s, j);
    forall o | o in t.parts && Stale(t, o) ensures Due(t, o) {
      SameStale(s, t, o);
      assert Due(s, o);
    }
  }

  lemma PublishKeepsDue(s: State)
    requires Shape(s) && StaleIsDue(s) && Enabled(s, Publish)
    ensures StaleIsDue(Step(s, Publish))
  {
    var t := Step(s, Publish);
    var f := s.inflight.value;
    forall o | o in t.parts && Stale(t, o) ensures Due(t, o) {
      var j: nat :| Seen(t, j) && o in Dead(t.history[j]);
      if o == s.history[f].id {
        SupersedingEntry(s, f, j);
      } else {
        assert o in s.parts && o !in Dead(s.history[f]);
        assert Seen(s, j);
        assert Due(s, o);
      }
    }
  }

  /** What is left of the deferrals without those in `dropped`. */
  lemma DueAfterDrop(s: State, t: State, dropped: set<Id>, o: Id)
    requires t.pending == s.pending - dropped && Due(s, o)
    ensures Due(t, o) <==> !Orphan(s, dropped, o)
  {
    if Due(t, o) { var p :| p in t.pending && o in t.pending[p]; }
    if !Orphan(s, dropped, o) {
      var p :| p in s.pending && o in s.pending[p] && p !in dropped;
      assert p in t.pending && t.pending[p] == s.pending[p];
    }
  }

  lemma FetchedDueIff(s: State)
    requires Shape(s) && Deferrals(s) && StaleIsDue(s) && Enabled(s, Apply(true)) && !Own(s, s.pointer)
    ensures StaleIsDue(Step(s, Apply(true))) <==> Prompt(s, Apply(true))
  {
    var t := Step(s, Apply(true));
    var e := s.history[s.pointer];
    NotYetStale(s, t);
    forall o | o in s.parts && o !in Dead(e)
      ensures Stale(t, o) <==> Stale(s, o)
      ensures Due(s, o) ==> (Due(t, o) <==> !Orphan(s, Dead(e), o)) && Stale(s, o)
    {
      StaleNext(s, t, o);
      if Due(s, o) {
        DueAfterDrop(s, t, Dead(e), o);
        DueIsStale(s, o);
      }
    }
    hide Stale, Due, Shape, Deferrals;
    assert forall o :: o in t.parts ==> o == e.id || (o in s.parts && o !in Dead(e));
    assert forall o :: o in s.parts && o !in Dead(e) ==> o in t.parts;
  }

  /** The part of the entry just processed is superseded by nothing that is visible. */
  lemma NotYetStale(s: State, t: State)
    requires Shape(s) && s.pointer < |s.history| && !Own(s, s.pointer) && t.history == s.history && t.me == s.me
    requires t.pointer == s.pointer + 1
    ensures !Stale(t, s.history[s.pointer].id)
  {
    var p := s.pointer;
    forall j: nat | Seen(t, j) ensures s.history[p].id !in Dead(s.history[j]) {
      if s.history[p].id in Dead(s.history[j]) { SupersedingEntry(s, p, j); }
    }
  }

  lemma StaleNext(s: State, t: State, o: Id)
    requires s.pointer < |s.history| && t.history == s.history && t.me == s.me && t.inflight == s.inflight && t.pointer == s.pointer + 1
    requires o !in Dead(s.history[s.pointer]) || Own(s, s.pointer)
    ensures Stale(t, o) <==> Stale(s, o)
  {
    assert forall j: nat :: Seen(t, j) ==> j == s.pointer || Seen(s, j);
    assert forall j: nat :: Seen(s, j) ==> Seen(t, j);
    if Own(s, s.pointer) { assert forall j: nat :: Seen(t, j) <==> Seen(s, j); }
  }

  lemma DeferredKeepsDue(s: State)
    requires Shape(s) && Deferrals(s) && StaleIsDue(s) && Enabled(s, Apply(false)) && !Own(s, s.pointer)
    ensures StaleIsDue(Step(s, Apply(false)))
  {
    var t := Step(s, Apply(false));
    var e := s.history[s.pointer];
    forall o | o in t.parts && Stale(t, o) ensures Due(t, o) {
      if o in Dead(e) {
        assert e.id in t.pending && o in t.pending[e.id];
      } else {
        StaleNext(s, t, o);
        var p :| p in s.pending && o in s.pending[p];
        var j: nat :| Defers(s, j, p, o);
        assert s.history[j].id != s.history[s.pointer].id;
        assert p in t.pending && t.pending[p] == s.pending[p];
      }
    }
  }

  lemma OwnKeepsDue(s: State, fetched: bool)
    requires Shape(s) && StaleIsDue(s) && Enabled(s, Apply(fetched)) && Own(s, s.pointer)
    ensures StaleIsDue(Step(s, Apply(fetched)))
  {
    var t := Step(s, Apply(fetched));
    forall o | o in t.parts && Stale(t, o) ensures Due(t, o) {
      StaleNext(s, t, o);
      assert Due(s, o);
    }
  }

  lemma DropDueIff(s: State, id: Id, fetched: bool)
    requires Shape(s) && Deferrals(s) && StaleIsDue(s) && Enabled(s, Retry(id, true, fetched)) && id !in LiveIds(s.history)
    ensures StaleIsDue(Step(s, Retry(id, true, fetched))) <==> Prompt(s, Retry(id, true, fetched))
  {
    var t := Step(s, Retry(id, true, fetched));
    forall o | o in s.parts
      ensures Stale(t, o) <==> Stale(s, o)
      ensures Due(s, o) ==> (Due(t, o) <==> !Orphan(s, {id}, o)) && Stale(s, o)
    {
      SameStale(s, t, o);
      if Due(s, o) {
        DueAfterDrop(s, t, {id}, o);
        DueIsStale(s, o);
      }
    }
    hide Stale, Due, Shape, Deferrals, Fold;
  }

  lemma LiveIsNotStale(s: State, o: Id)
    requires Shape(s) && o in LiveIds(s.history)
    ensures !Stale(s, o)
  {
    assert s.history[..|s.history|] == s.history;
    var i := LiveComesFromPrefix(s.history, |s.history|, o);
  }

  /** A retry that fetches its part replaces everything that part was to replace, and spoils nothing else. */
  lemma RetryDueIff(s: State, id: Id, checked: bool)
    requires Shape(s) && Deferrals(s) && StaleIsDue(s) && Enabled(s, Retry(id, checked, true)) && (checked ==> id in LiveIds(s.history))
    ensures StaleIsDue(Step(s, Retry(id, checked, true))) <==> (Stale(s, id) ==> Due(s, id))
  {
    var t := Step(s, Retry(id, checked, true));
    NotItsOwn(s, id);
    forall o | o in t.parts
      ensures Stale(t, o) <==> Stale(s, o)
      ensures Due(s, o) <==> Due(t, o)
    {
      SameStale(s, t, o);
      KeptDue(s, t, id, o);
    }
    hide Stale, Due, Shape, Deferrals, Fold;
    assert id in t.parts;
    assert forall o :: o in t.parts ==> o == id || o in s.parts;
  }

  lemma NotItsOwn(s: State, id: Id)
    requires Shape(s) && Deferrals(s) && id in s.pending
    ensures id !in s.pending[id]
  {
    if id in s.pending[id] {
      var j: nat :| Defers(s, j, id, id);
      SupersedingEntry(s, j, j);
    }
  }

  lemma KeptDue(s: State, t: State, id: Id, o: Id)
    requires id in s.pending && t.pending == s.pending - {id} && o !in s.pending[id]
    ensures Due(s, o) <==> Due(t, o)
  {
    if Due(s, o) {
      var p :| p in s.pending && o in s.pending[p];
      assert p in t.pending && t.pending[p] == s.pending[p];
    }
    if Due(t, o) { var p :| p in t.pending && o in t.pending[p]; }
  }

  /** What a snapshot lists is not due: an entry processed before it has superseded what is. */
  lemma LoadedNotDue(s: State, a: Action, o: Id)
    requires Shape(s) && Deferrals(s) && a.BootInstall? && Enabled(s, a) && o in a.loaded
    ensures !Due(Step(s, a), o)
  {
    var t := Step(s, a);
    assert o in Ids(a.loaded);
    if Due(t, o) {
      var p :| p in t.pending && o in t.pending[p];
      assert p in s.pending && o in s.pending[p];
      var j: nat :| Defers(s, j, p, o);
      var i := LiveComesFromPrefix(s.history, s.boot.value, o);
    }
  }

  lemma InstallDueIff(s: State, a: Action)
    requires Shape(s) && Deferrals(s) && a.BootInstall? && Enabled(s, a)
    ensures StaleIsDue(Step(s, a)) <==> Prompt(s, a)
  {
    var t := Step(s, a);
    var n := s.boot.value;
    forall o | o in a.loaded
      ensures !Due(t, o)
      ensures Stale(t, o) <==> exists i: nat :: n <= i && Own(s, i) && s.inflight != Some(i) && o in Dead(s.history[i])
    {
      LoadedNotDue(s, a, o);
      assert o in Ids(a.loaded);
      LoadedStale(s, t, n, o);
    }
    hide Stale, Due, Shape, Deferrals, Fold;
    if !Prompt(s, a) {
      var i: nat :| n <= i && Own(s, i) && s.inflight != Some(i) && !(Dead(s.history[i]) !! Ids(a.loaded));
      var o :| o in Dead(s.history[i]) && o in Ids(a.loaded);
      assert o in t.parts && Stale(t, o);
    }
  }

  lemma LoadedStale(s: State, t: State, n: nat, o: Id)
    requires Shape(s) && n <= |s.history| && o in LiveIds(s.history[..n])
    requires t.history == s.history && t.me == s.me && t.inflight == s.inflight && t.pointer <= n
    ensures Stale(t, o) <==> exists i: nat :: n <= i && Own(s, i) && s.inflight != Some(i) && o in Dead(s.history[i])
  {
    var k := LiveComesFromPrefix(s.history, n, o);
    if Stale(t, o) {
      var j: nat :| Seen(t, j) && o in Dead(t.history[j]);
      assert n <= j && Own(s, j);
    }
    if i: nat :| n <= i && Own(s, i) && s.inflight != Some(i) && o in Dead(s.history[i]) { assert Seen(t, i); }
  }

  lemma FailDueIff(s: State, failed: set<Id>)
    requires Shape(s) && Deferrals(s) && StaleIsDue(s) && Enabled(s, BootFail(failed))
    ensures StaleIsDue(Step(s, BootFail(failed))) <==> Prompt(s, BootFail(failed))
  {
    var t := Step(s, BootFail(failed));
    forall o | o in s.parts
      ensures Stale(t, o) <==> Stale(s, o)
      ensures Due(s, o) ==> (Due(t, o) <==> !Orphan(s, failed, o)) && Stale(s, o)
    {
      SameStale(s, t, o);
      if Due(s, o) {
        DueAfterFail(s, t, failed, o);
        DueIsStale(s, o);
      }
    }
    hide Stale, Due, Shape, Deferrals, Fold;
  }

  lemma DueAfterFail(s: State, t: State, failed: set<Id>, o: Id)
    requires t.pending == s.pending + Deferred(failed) && Due(s, o)
    ensures Due(t, o) <==> !Orphan(s, failed, o)
  {
    if Due(t, o) { var p :| p in t.pending && o in t.pending[p]; }
    if !Orphan(s, failed, o) {
      var p :| p in s.pending && o in s.pending[p] && p !in failed;
      assert p in t.pending && t.pending[p] == s.pending[p];
    }
  }

  lemma RestartKeepsDue(s: State, a: Action)
    requires Shape(s) && a.Restart? && Enabled(s, a)
    ensures StaleIsDue(Step(s, a))
  {
    var t := Step(s, a);
    forall o | o in t.parts ensures !Stale(t, o) {
      assert o in Ids(a.loaded);
      assert s.history[..|s.history|] == s.history;
      var i := LiveComesFromPrefix(s.history, |s.history|, o);
    }
  }

  lemma IdleKeepsDue(s: State, a: Action)
    requires StaleIsDue(s) && Enabled(s, a) && (a.Truncate? || a.BootRead? || a.Collect? || (a.Retry? && Step(s, a) == s))
    ensures StaleIsDue(Step(s, a))
  {
    var t := Step(s, a);
    forall o | o in t.parts && Stale(t, o) ensures Due(t, o) {
      SameStale(s, t, o);
      assert Due(s, o);
    }
  }

  lemma RetryStepDueIff(s: State, a: Action)
    requires Shape(s) && Deferrals(s) && StaleIsDue(s) && a.Retry? && Enabled(s, a)
    ensures StaleIsDue(Step(s, a)) <==> Prompt(s, a)
  {
    hide Shape, Deferrals, StaleIsDue, Fold, Stale, Due, Orphan;
    if a.checked && a.id !in LiveIds(s.history) {
      DropDueIff(s, a.id, a.fetched);
    } else if a.fetched {
      RetryDueIff(s, a.id, a.checked);
      if a.checked { LiveIsNotStale(s, a.id); }
    } else {
      IdleKeepsDue(s, a);
    }
  }

  /** One step keeps every listed superseded part due to be replaced exactly when it is prompt. */
  lemma StepDueIff(s: State, a: Action)
    requires Shape(s) && Deferrals(s) && StaleIsDue(s) && Enabled(s, a)
    ensures StaleIsDue(Step(s, a)) <==> Prompt(s, a)
  {
    hide Shape, Deferrals, StaleIsDue, Fold, Stale, Due, Orphan, Step;
    match a {
      case OtherCommit(_) => CommitKeepsDue(s, a);
      case OwnCommit(_) => CommitKeepsDue(s, a);
      case Publish => PublishKeepsDue(s);
      case Apply(fetched) =>
        if Own(s, s.pointer) { OwnKeepsDue(s, fetched); } else if fetched { FetchedDueIff(s); } else { DeferredKeepsDue(s); }
      case Retry(_, _, _) => RetryStepDueIff(s, a);
      case BootInstall(_, _, _) => InstallDueIff(s, a);
      case BootFail(failed) => FailDueIff(s, failed);
      case Restart(_, _) => RestartKeepsDue(s, a);
      case _ => IdleKeepsDue(s, a);
    }
  }

  // ---------- runs ----------

  ghost predicate PromptRun(me: NodeId, acts: seq<Action>)
  {
    acts == [] ||
    var s := Run(me, acts[..|acts| - 1]);
    PromptRun(me, acts[..|acts| - 1]) && (Enabled(s, acts[|acts| - 1]) ==> Prompt(s, acts[|acts| - 1]))
  }

  ghost predicate DueThroughout(me: NodeId, acts: seq<Action>)
  {
    StaleIsDue(Run(me, acts)) && (acts == [] || DueThroughout(me, acts[..|acts| - 1]))
  }

  /**
   Whatever fetches and checks fail, in any run: at every moment each superseded part that is
   still listed is one that a deferred merge will replace, if and only if every step was prompt.
   */
  lemma {:induction false} StaleOnlyWhileDueIff(me: NodeId, acts: seq<Action>)
    ensures DueThroughout(me, acts) <==> PromptRun(me, acts)
  {
    if acts != [] {
      hide Shape, Deferrals, StaleIsDue, Prompt, Enabled, Step;
      var before := acts[..|acts| - 1];
      StaleOnlyWhileDueIff(me, before);
      var s := Run(me, before);
      RunDeferrals(me, before);
      if StaleIsDue(s) && Enabled(s, acts[|acts| - 1]) { StepDueIff(s, acts[|acts| - 1]); }
    }
  }

  /** Only parts that some entry has added are listed or deferred. */
  ghost predicate OnlyAdded(s: State)
  {
    forall o :: o in s.parts || o in s.pending ==> Added(s.history, |s.history|, o)
  }

  lemma LiveIsAdded(h: seq<LogEntry>, n: nat, o: Id)
    requires WellFormed(h) && n <= |h| && o in LiveIds(h[..n])
    ensures Added(h, |h|, o)
  {
    var i := LiveComesFromPrefix(h, n, o);
  }

  lemma AddedLater(h: seq<LogEntry>, e: LogEntry, o: Id)
    requires Added(h, |h|, o)
    ensures Added(h + [e], |h| + 1, o)
  {
    var k :| 0 <= k < |h| && h[k].id == o;
    assert (h + [e])[k].id == o;
  }

  lemma StepKeepsAdded(s: State, a: Action)
    requires Shape(s) && OnlyAdded(s) && Enabled(s, a)
    ensures OnlyAdded(Step(s, a))
  {
    var t := Step(s, a);
    assert s.history[..|s.history|] == s.history;
    forall o | o in t.parts || o in t.pending ensures Added(t.history, |t.history|, o) {
      if o in s.parts || o in s.pending {
        if a.OtherCommit? || a.OwnCommit? { AddedLater(s.history, a.e, o); }
      } else if a.Publish? {
        assert s.history[s.inflight.value].id == o;
      } else if a.Apply? {
        assert s.history[s.pointer].id == o;
      } else if a.Restart? {
        assert o in Ids(a.loaded) + a.failed;
        LiveIsAdded(s.history, |s.history|, o);
      } else {
        assert a.BootInstall? || a.BootFail?;
        assert a.BootInstall? ==> o in Ids(a.loaded) + a.failed;
        LiveIsAdded(s.history, s.boot.value, o);
      }
    }
  }

  lemma {:induction false} RunOnlyAdded(me: NodeId, acts: seq<Action>)
    ensures OnlyAdded(Run(me, acts))
  {
    if acts != [] {
      hide OnlyAdded, Shape, Enabled, Step;
      var s := Run(me, acts[..|acts| - 1]);
      RunOnlyAdded(me, acts[..|acts| - 1]);
      if Enabled(s, acts[|acts| - 1]) { StepKeepsAdded(s, acts[|acts| - 1]); }
    } else {
      StartAdded(me);
    }
  }

  lemma StartAdded(me: NodeId)
    ensures OnlyAdded(Start(me))
  {}

  /**
   Fetches may fail and be retried: a replica at the tail with nothing in flight and nothing
   pending lists exactly the live parts, after every run that was prompt and forgot nothing.
   */
  lemma RetriedIsExact(me: NodeId, acts: seq<Action>)
    requires PromptRun(me, acts) && CurrentRun(me, acts)
    requires var s := Run(me, acts); s.pointer == |s.history| && s.inflight.None? && s.pending == map[]
    ensures Ids(Run(me, acts).parts) == LiveIds(Run(me, acts).history)
  {
    var s := Run(me, acts);
    StaleOnlyWhileDueIff(me, acts);
    RunOnlyAdded(me, acts);
    forall o | o in LiveIds(s.history) ensures o in s.parts { CaughtUpForgetsNothing(me, acts, o); }
    assert s.history[..|s.history|] == s.history;
    forall o | o in s.parts ensures o in LiveIds(s.history) {
      assert !Due(s, o) && !Stale(s, o);
      var i :| 0 <= i < |s.history| && s.history[i].id == o;
      forall k | 0 <= k < |s.history| ensures o !in Dead(s.history[k]) { assert Seen(s, k); }
      LiveInPrefix(s.history, |s.history|, i);
    }
  }
}
