/** The registry's log and a replica's history are one log. */
module SharedLog {
  // Registry models the requests of all clients to the store, Replica one node that follows
  // the log. Here every history the registry can produce, with what it has truncated of it,
  // is shown to be one that every replica can meet, and a snapshot read from the registry is
  // compared with the one a replica's bootstrap loads.

  import opened Prelude
  import opened PartLog
  import Registry
  import Replica
  import ReplicaRuns

  /** Merges name parts that the same node added, as compaction picks them, and PUTs name none. */
  ghost predicate OwnMerges(h: seq<LogEntry>)
  {
    && (forall i :: 0 <= i < |h| ==> forall o :: o in h[i].olds ==> Replica.AddedBy(h, i, o, h[i].node))
    && (forall i :: 0 <= i < |h| && !h[i].merge ==> h[i].olds == [])
  }

  lemma LastAppendable(h: seq<LogEntry>, e: LogEntry)
    requires OwnMerges(h + [e]) && !Added(h, |h|, e.id)
    ensures OwnMerges(h) && Replica.Appendable(h, e)
  {
    var g := h + [e];
    forall i, o | 0 <= i < |g| && o in g[i].olds ensures Replica.AddedBy(h, i, o, g[i].node) {
      assert Replica.AddedBy(g, i, o, g[i].node);
      var k :| 0 <= k < i && k < |g| && g[k].id == o && g[k].node == g[i].node;
      assert h[k] == g[k];
    }
    forall i | 0 <= i < |h| ensures h[i] == g[i] {}
    assert g[|h|] == e;
  }

  /** The replica is up to date with the registry and idle. */
  ghost predicate Follows(s: Registry.Store, t: Replica.State)
  {
    t.history == s.history && t.low == s.low && t.inflight.None?
  }

  /** The replica sees the entry that the registry has just committed. */
  lemma FollowCommit(me: NodeId, racts: seq<Replica.Action>, e: LogEntry) returns (more: seq<Replica.Action>)
    requires var t := ReplicaRuns.Run(me, racts); t.me == me && t.inflight.None? && Replica.Appendable(t.history, e)
    ensures var t, u := ReplicaRuns.Run(me, racts), ReplicaRuns.Run(me, more);
            u.history == t.history + [e] && u.low == t.low && u.inflight.None? && u.me == me
  {
    hide ReplicaRuns.Run, Replica.Appendable, Replica.Replace;
    if e.node == me {
      ReplicaRuns.RunExtends(me, racts, Replica.OwnCommit(e));
      var r2 := racts + [Replica.OwnCommit(e)];
      ReplicaRuns.RunExtends(me, r2, Replica.Publish);
      more := r2 + [Replica.Publish];
    } else {
      ReplicaRuns.RunExtends(me, racts, Replica.OtherCommit(e));
      more := racts + [Replica.OtherCommit(e)];
    }
  }

  lemma FollowTruncate(me: NodeId, racts: seq<Replica.Action>, m: nat) returns (more: seq<Replica.Action>)
    requires m < |ReplicaRuns.Run(me, racts).history|
    ensures var t := ReplicaRuns.Run(me, racts);
            ReplicaRuns.Run(me, more) == t.(low := if t.low < m then m else t.low)
  {
    hide ReplicaRuns.Run;
    ReplicaRuns.RunExtends(me, racts, Replica.Truncate(m));
    more := racts + [Replica.Truncate(m)];
  }

  /** What a step of the registry does to the log: it appends one entry, truncates, or leaves it alone. */
  lemma LogEffect(s: Registry.Store, a: Registry.Action)
    requires Registry.Inv(s) && Registry.Enabled(s, a)
    ensures var r := Registry.Step(s, a);
            if a.CleanDelete? then a.m - 1 < |s.history| && r.history == s.history && r.low == (if s.low < a.m - 1 then a.m - 1 else s.low)
            else
              && r.low == s.low
              && (r.history != s.history ==>
                    a.Commit? && s.attempts[a.c].Ready? && r.history == s.history + [s.attempts[a.c].e]
                    && !Added(s.history, |s.history|, s.attempts[a.c].e.id))
  {
    Registry.StepAppends(s, a);
    if a.CleanDelete? {
      Registry.CleanDeleteBound(s, a.k, a.m);
    } else if a.Commit? {
      assert Registry.AttemptOk(s, s.attempts[a.c]);
    }
  }

  lemma FollowStep(s: Registry.Store, a: Registry.Action, me: NodeId, racts: seq<Replica.Action>) returns (more: seq<Replica.Action>)
    requires Registry.Inv(s) && Registry.Enabled(s, a) && OwnMerges(Registry.Step(s, a).history)
    requires Follows(s, ReplicaRuns.Run(me, racts)) && ReplicaRuns.Run(me, racts).me == me
    ensures Follows(Registry.Step(s, a), ReplicaRuns.Run(me, more)) && ReplicaRuns.Run(me, more).me == me
  {
    hide ReplicaRuns.Run, OwnMerges, Replica.Appendable, Registry.Inv, Registry.Step;
    var r := Registry.Step(s, a);
    LogEffect(s, a);
    if a.CleanDelete? {
      more := FollowTruncate(me, racts, a.m - 1);
    } else if r.history != s.history {
      LastAppendable(s.history, s.attempts[a.c].e);
      more := FollowCommit(me, racts, s.attempts[a.c].e);
    } else {
      more := racts;
    }
  }

  /**
   Whatever any number of clients do to the registry, every node has a run in which it meets
   exactly the history that was committed and finds exactly as much of it truncated.
   */
  lemma {:induction false} RegistryRunIsFollowed(acts: seq<Registry.Action>, me: NodeId) returns (racts: seq<Replica.Action>)
    requires OwnMerges(Registry.Run(acts).history)
    ensures Follows(Registry.Run(acts), ReplicaRuns.Run(me, racts)) && ReplicaRuns.Run(me, racts).me == me
  {
    if acts == [] {
      racts := [];
    } else {
      var s := Registry.Run(acts[..|acts| - 1]);
      var a := acts[|acts| - 1];
      PrefixOwnMerges(acts);
      racts := RegistryRunIsFollowed(acts[..|acts| - 1], me);
      if Registry.Enabled(s, a) { racts := FollowStep(s, a, me, racts); }
    }
  }

  lemma PrefixOwnMerges(acts: seq<Registry.Action>)
    requires acts != [] && OwnMerges(Registry.Run(acts).history)
    ensures OwnMerges(Registry.Run(acts[..|acts| - 1]).history)
  {
    var s := Registry.Run(acts[..|acts| - 1]);
    var a := acts[|acts| - 1];
    if Registry.Enabled(s, a) {
      LogEffect(s, a);
      if Registry.Step(s, a).history != s.history { LastAppendable(s.history, s.attempts[a.c].e); }
    }
  }

  /** The keys a bootstrap reads from the registry are the live parts its replica expects exactly when no leftover key was alive. */
  lemma SnapshotKeysIff(acts: seq<Registry.Action>, k: nat)
    requires k in Registry.Run(acts).readers
    ensures var s := Registry.Run(acts); var r := s.readers[k];
            && r.index <= |s.history| && r.revision < |s.past|
            && Replica.LiveIds(s.history[..r.index]) <= Registry.SnapshotParts(s, r).Keys
            && (Registry.SnapshotParts(s, r).Keys == Replica.LiveIds(s.history[..r.index]) <==>
                forall o :: o in Registry.SnapshotParts(s, r) ==> !Registry.Leftover(s.history[..r.index], o))
  {
    var s := Registry.Run(acts);
    var r := s.readers[k];
    var h := s.history[..r.index];
    assert Registry.Covers(s.past[r.revision].parts, s.history[..s.past[r.revision].len]);
    WellFormedPrefix(s.history, r.index);
    forall o | Registry.Leftover(h, o) ensures o !in Fold(h) { Registry.LeftoverIsDead(h, o); }
  }

  lemma LeftoverIsSuperseded(h: seq<LogEntry>, n: nat, o: Id) returns (j: nat)
    requires n <= |h| && Registry.Leftover(h[..n], o)
    ensures j < n && o in Dead(h[j])
  {
    var i :| 0 <= i < n && o in Registry.Remaining(h[..n][i]);
    j := i;
  }

  /** A replica that has just installed what the registry returned lists something stale exactly when a leftover key was alive. */
  lemma InstalledStaleIffLeftover(acts: seq<Registry.Action>, k: nat, t: Replica.State)
    requires k in Registry.Run(acts).readers && Replica.Shape(t) && t.history == Registry.Run(acts).history
    requires var s := Registry.Run(acts); var r := s.readers[k];
             r.index <= |s.history| && r.revision < |s.past| && Ids(t.parts) == Registry.SnapshotParts(s, r).Keys
             && t.pointer == r.index && t.inflight.None? && forall j: nat :: r.index <= j ==> !Replica.Own(t, j)
    ensures var s := Registry.Run(acts); var r := s.readers[k];
            ReplicaRuns.NoStale(t) <==> forall o :: o in Registry.SnapshotParts(s, r) ==> !Registry.Leftover(s.history[..r.index], o)
  {
    hide Registry.Run, Registry.Inv, Registry.Leftover, Fold;
    var s := Registry.Run(acts);
    var r := s.readers[k];
    SnapshotKeysIff(acts, k);
    if o :| o in Registry.SnapshotParts(s, r) && Registry.Leftover(s.history[..r.index], o) {
      var j := LeftoverIsSuperseded(s.history, r.index, o);
      assert o in Ids(t.parts) && Replica.Seen(t, j);
    } else {
      ReplicaRuns.LoadedNoStaleIff(t, t, r.index);
    }
  }
}
