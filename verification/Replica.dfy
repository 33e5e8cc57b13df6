/** One replica of the parts. */
module Replica {
  // One replica following the part log: it applies entries in order, defers parts it cannot
  // fetch, retries them, bootstraps from a snapshot of the live parts when the log has a gap,
  // and reconciles with the live parts in a garbage-collection pass. Other nodes, its own
  // flushes and compactions, and log truncation run in between.
  //
  // Entries are counted from 0 here: `pointer` is the number of entries processed.

  import opened Prelude
  import opened PartLog

  datatype State = State(
    me: NodeId,
    history: seq<LogEntry>,
    low: nat, // entries below this one are truncated
    parts: seq<Id>,
    pending: map<Id, seq<Id>>, // deferred part, with the parts it supersedes
    pointer: nat,
    inflight: Option<nat>, // own entry that is in the log but not yet in `parts`
    boot: Option<nat>) // log length at which a running bootstrap took its snapshot

  datatype Action =
    | OtherCommit(e: LogEntry)
    | OwnCommit(e: LogEntry)
    | Publish
    | Truncate(m: nat)
    | Apply(fetched: bool)
    | Retry(id: Id, checked: bool, fetched: bool)
    | BootRead
    | BootInstall(loaded: seq<Id>, failed: set<Id>, moved: bool)
    | BootFail(failed: set<Id>)
    | Collect(recent: set<Id>)
    | Restart(loaded: seq<Id>, failed: set<Id>)

  // ---------- part lists ----------

  function Without(parts: seq<Id>, dead: set<Id>): (r: seq<Id>)
    ensures forall x :: x in r <==> x in parts && x !in dead
  {
    if parts == [] then []
    else
      var last := parts[|parts| - 1];
      var r := Without(parts[..|parts| - 1], dead);
      assert parts == parts[..|parts| - 1] + [last];
      if last in dead then r else r + [last]
  }

  lemma {:induction false} WithoutNoDup(parts: seq<Id>, dead: set<Id>)
    requires NoDup(parts)
    ensures NoDup(Without(parts, dead))
  {
    if parts != [] {
      var front := parts[..|parts| - 1];
      WithoutNoDup(front, dead);
      forall i | 0 <= i < |front| ensures parts[|parts| - 1] != front[i] {}
    }
  }

  ghost predicate NoDup(xs: seq<Id>)
  {
    forall i, j :: 0 <= i < j < |xs| ==> xs[i] != xs[j]
  }

  /** Swaps the superseded parts for the new one, adding it only if it is not there yet. */
  function Replace(parts: seq<Id>, e: LogEntry): seq<Id>
  {
    var rest := Without(parts, Dead(e));
    if e.id in rest then rest else rest + [e.id]
  }

  function LiveIds(h: seq<LogEntry>): set<Id> { Fold(h).Keys }

  // ---------- steps ----------

  /** A node's merges name parts that the same node added, as compaction picks them. */
  ghost predicate AddedBy(h: seq<LogEntry>, n: nat, o: Id, node: NodeId)
  {
    exists k :: 0 <= k < n && k < |h| && h[k].id == o && h[k].node == node
  }

  ghost predicate Appendable(h: seq<LogEntry>, e: LogEntry)
  {
    && !Added(h, |h|, e.id)
    && (forall o :: o in e.olds ==> AddedBy(h, |h|, o, e.node))
    && (!e.merge ==> e.olds == [])
  }

  /** The snapshot's parts, split into those on disk or fetched and those not reachable. */
  ghost predicate Loads(live: set<Id>, loaded: seq<Id>, failed: set<Id>)
  {
    failed <= live && NoDup(loaded) && Ids(loaded) == live - failed
  }

  function Deferred(ids: set<Id>): map<Id, seq<Id>> { map x | x in ids :: [] }

  ghost predicate Enabled(s: State, a: Action)
  {
    match a
    case OtherCommit(e) => e.node != s.me && Appendable(s.history, e)
    case OwnCommit(e) => e.node == s.me && s.inflight.None? && Appendable(s.history, e)
    case Publish => s.inflight.Some? && s.inflight.value < |s.history|
    case Truncate(m) => m < |s.history|
    case Apply(_) => s.boot.None? && s.low <= s.pointer < |s.history|
    case Retry(id, _, _) => s.boot.None? && id in s.pending
    case BootRead => s.boot.None?
    case BootInstall(loaded, failed, _) =>
      s.boot.Some? && s.boot.value <= |s.history| && Loads(LiveIds(s.history[..s.boot.value]), loaded, failed)
    case BootFail(failed) => s.boot.Some? && s.boot.value <= |s.history| && failed <= LiveIds(s.history[..s.boot.value])
    case Collect(_) => true
    case Restart(loaded, failed) => Loads(LiveIds(s.history), loaded, failed)
  }

  function Step(s: State, a: Action): State
    requires Enabled(s, a)
  {
    match a
    case OtherCommit(e) => s.(history := s.history + [e])
    case OwnCommit(e) => s.(history := s.history + [e], inflight := Some(|s.history|))
    case Publish => s.(parts := Replace(s.parts, s.history[s.inflight.value]), inflight := None)
    case Truncate(m) => s.(low := if s.low < m then m else s.low)
    case Apply(fetched) =>
      var e := s.history[s.pointer];
      var t := s.(pointer := s.pointer + 1);
      if e.node == s.me then t
      else if fetched then t.(parts := Replace(s.parts, e), pending := s.pending - Dead(e))
      else t.(pending := s.pending[e.id := e.olds])
    case Retry(id, checked, fetched) =>
      // when the existence check fails the part is fetched all the same
      if checked && id !in LiveIds(s.history) then s.(pending := s.pending - {id})
      else if fetched then
        s.(parts := Without(s.parts, Ids(s.pending[id])) + [id], pending := s.pending - {id})
      else s
    case BootRead => s.(boot := Some(|s.history|))
    case BootInstall(loaded, failed, moved) =>
      var live := LiveIds(s.history[..s.boot.value]);
      s.(parts := loaded,
         pending := map x | x in s.pending.Keys + failed && x in live :: if x in failed then [] else s.pending[x],
         pointer := if moved then s.boot.value else s.pointer,
         boot := None)
    case BootFail(failed) => s.(pending := s.pending + Deferred(failed), boot := None)
    case Collect(recent) => s.(parts := Without(s.parts, Ids(s.parts) - (LiveIds(s.history) + recent)))
    case Restart(loaded, failed) =>
      s.(parts := loaded, pending := Deferred(failed), pointer := |s.history|, inflight := None, boot := None)
  }

  // ---------- what the replica knows ----------

  predicate Own(s: State, i: nat) { i < |s.history| && s.history[i].node == s.me }

  /** Entries whose effect should be visible: processed ones, and published own ones. */
  predicate Seen(s: State, i: nat)
  {
    i < |s.history| && (i < s.pointer || Own(s, i)) && s.inflight != Some(i)
  }

  ghost predicate Dies(s: State, o: Id) { Superseded(s.history, |s.history|, o) }

  ghost predicate Shape(s: State)
  {
    && WellFormed(s.history)
    && (forall i :: 0 <= i < |s.history| ==> forall o :: o in s.history[i].olds ==> AddedBy(s.history, i, o, s.history[i].node))
    && (forall i :: 0 <= i < |s.history| && !s.history[i].merge ==> s.history[i].olds == [])
    && s.pointer <= |s.history|
    && (s.inflight.Some? ==> Own(s, s.inflight.value) && forall i :: s.inflight.value < i < |s.history| ==> s.history[i].node != s.me)
    && (s.boot.Some? ==> s.pointer <= s.boot.value <= |s.history|)
    && (forall id :: id in s.pending ==> forall o :: o in s.pending[id] ==> Dies(s, o))
  }

  /** A part that was seen and is live in the whole log is listed or waiting to be fetched. */
  ghost predicate Remembers(s: State)
  {
    forall i: nat :: Seen(s, i) && !Dies(s, s.history[i].id) ==> s.history[i].id in s.parts || s.history[i].id in s.pending
  }

  /** No own entry past the snapshot has been published meanwhile. */
  ghost predicate SnapshotCurrent(s: State)
  {
    s.boot.Some? ==> forall i: nat :: s.boot.value <= i && Own(s, i) && s.inflight != Some(i) ==> Dies(s, s.history[i].id)
  }

  // ---------- the shape is kept ----------

  lemma SupersededGrows(h: seq<LogEntry>, e: LogEntry, o: Id)
    ensures Superseded(h + [e], |h| + 1, o) <==> Superseded(h, |h|, o) || o in Dead(e)
  {
    assert (h + [e])[..|h|] == h;
    SupersededSnoc(h + [e], o);
  }

  lemma AddedByGrows(h: seq<LogEntry>, e: LogEntry, n: nat, o: Id, node: NodeId)
    requires AddedBy(h, n, o, node)
    ensures AddedBy(h + [e], n, o, node)
  {
    var k :| 0 <= k < n && k < |h| && h[k].id == o && h[k].node == node;
    assert (h + [e])[k] == h[k];
  }

  lemma AppendKeepsShape(s: State, e: LogEntry)
    requires Shape(s) && Appendable(s.history, e)
    requires e.node == s.me ==> s.inflight.None?
    ensures Shape(s.(history := s.history + [e], inflight := if e.node == s.me then Some(|s.history|) else s.inflight))
  {
    var h, g := s.history, s.history + [e];
    forall o | o in e.olds ensures Added(h, |h|, o) {
      var k :| 0 <= k < |h| && h[k].id == o && h[k].node == e.node;
    }
    WellFormedSnoc(h, e);
    forall i, o | 0 <= i < |g| && o in g[i].olds ensures AddedBy(g, i, o, g[i].node) {
      AddedByGrows(h, e, i, o, g[i].node);
    }
    forall id, o | id in s.pending && o in s.pending[id] ensures Superseded(g, |g|, o) {
      SupersededGrows(h, e, o);
    }
  }

  lemma ApplyKeepsShape(s: State, fetched: bool)
    requires Shape(s) && Enabled(s, Apply(fetched))
    ensures Shape(Step(s, Apply(fetched)))
  {
    var e := s.history[s.pointer];
    var t := Step(s, Apply(fetched));
    forall o | o in e.olds ensures Dies(s, o) { assert o in Dead(e); }
    forall id, o | id in t.pending && o in t.pending[id] ensures Dies(t, o) {
      assert Dies(s, o);
    }
  }

  lemma OtherKeepsShape(s: State, a: Action)
    requires Shape(s) && Enabled(s, a)
    requires !a.OtherCommit? && !a.OwnCommit? && !a.Apply?
    ensures Shape(Step(s, a))
  {
    var t := Step(s, a);
    forall id, o | id in t.pending && o in t.pending[id] ensures Dies(t, o) {
      assert id in s.pending && o in s.pending[id];
    }
  }

  lemma StepKeepsShape(s: State, a: Action)
    requires Shape(s) && Enabled(s, a)
    ensures Shape(Step(s, a))
  {
    match a {
      case OtherCommit(e) => AppendKeepsShape(s, e);
      case OwnCommit(e) => AppendKeepsShape(s, e);
      case Apply(fetched) => ApplyKeepsShape(s, fetched);
      case _ => OtherKeepsShape(s, a);
    }
  }

  // ---------- nothing is forgotten ----------

  lemma LiveInPrefix(h: seq<LogEntry>, n: nat, i: nat)
    requires WellFormed(h) && i < n <= |h| && !Superseded(h, n, h[i].id)
    ensures h[i].id in LiveIds(h[..n])
  {
    var g := h[..n];
    WellFormedPrefix(h, n);
    assert g[i].id == h[i].id;
    assert Added(g, |g|, h[i].id);
    forall k | 0 <= k < n ensures h[i].id !in Dead(g[k]) { assert g[k] == h[k]; }
    FoldLive(g, h[i].id);
  }

  lemma LiveComesFromPrefix(h: seq<LogEntry>, n: nat, o: Id) returns (i: nat)
    requires WellFormed(h) && n <= |h| && o in LiveIds(h[..n])
    ensures i < n && h[i].id == o && forall k :: 0 <= k < n ==> o !in Dead(h[k])
  {
    var g := h[..n];
    WellFormedPrefix(h, n);
    FoldLive(g, o);
    var k :| 0 <= k < |g| && g[k].id == o;
    i := k;
    forall j | 0 <= j < n ensures o !in Dead(h[j]) { assert h[j] == g[j]; }
  }

  lemma CommitRemembers(s: State, a: Action)
    requires Shape(s) && Remembers(s) && Enabled(s, a) && (a.OtherCommit? || a.OwnCommit?)
    ensures Remembers(Step(s, a))
  {
    var t := Step(s, a);
    forall i: nat | Seen(t, i) && !Dies(t, t.history[i].id)
      ensures t.history[i].id in t.parts || t.history[i].id in t.pending
    {
      assert i < |s.history| && Seen(s, i);
      SupersededGrows(s.history, a.e, s.history[i].id);
    }
  }

  lemma PublishRemembers(s: State)
    requires Shape(s) && Remembers(s) && Enabled(s, Publish)
    ensures Remembers(Step(s, Publish))
  {
    var t := Step(s, Publish);
    var f := s.inflight.value;
    forall i: nat | Seen(t, i) && !Dies(t, t.history[i].id)
      ensures t.history[i].id in t.parts || t.history[i].id in t.pending
    {
      if i != f {
        assert Seen(s, i) && !Dies(s, s.history[i].id);
        assert s.history[i].id !in Dead(s.history[f]);
      }
    }
  }

  lemma ApplyRemembers(s: State, fetched: bool)
    requires Shape(s) && Remembers(s) && Enabled(s, Apply(fetched))
    ensures Remembers(Step(s, Apply(fetched)))
  {
    var t := Step(s, Apply(fetched));
    var e := s.history[s.pointer];
    forall i: nat | Seen(t, i) && !Dies(t, t.history[i].id)
      ensures t.history[i].id in t.parts || t.history[i].id in t.pending
    {
      assert !Dies(s, s.history[i].id);
      assert s.history[i].id !in Dead(e);
      if i != s.pointer || Own(s, i) { assert Seen(s, i); }
    }
  }

  lemma RetryRemembers(s: State, id: Id, checked: bool, fetched: bool)
    requires Shape(s) && Remembers(s) && Enabled(s, Retry(id, checked, fetched))
    ensures Remembers(Step(s, Retry(id, checked, fetched)))
  {
    var t := Step(s, Retry(id, checked, fetched));
    forall i: nat | Seen(t, i) && !Dies(t, t.history[i].id)
      ensures t.history[i].id in t.parts || t.history[i].id in t.pending
    {
      assert Seen(s, i) && !Dies(s, s.history[i].id);
      assert s.history[..|s.history|] == s.history;
      LiveInPrefix(s.history, |s.history|, i);
      assert s.history[i].id !in s.pending[id];
    }
  }

  lemma CollectRemembers(s: State, recent: set<Id>)
    requires Shape(s) && Remembers(s)
    ensures Remembers(Step(s, Collect(recent)))
  {
    var t := Step(s, Collect(recent));
    forall i: nat | Seen(t, i) && !Dies(t, t.history[i].id)
      ensures t.history[i].id in t.parts || t.history[i].id in t.pending
    {
      assert Seen(s, i) && !Dies(s, s.history[i].id);
      assert s.history[..|s.history|] == s.history;
      LiveInPrefix(s.history, |s.history|, i);
    }
  }

  /** A collection keeps exactly the listed parts that are live or recent, in their order. */
  lemma CollectKeepsExactly(s: State, recent: set<Id>)
    ensures var t := Step(s, Collect(recent));
            && Ids(t.parts) == Ids(s.parts) * (LiveIds(s.history) + recent)
            && (NoDup(s.parts) ==> NoDup(t.parts)) && t == s.(parts := t.parts)
  {
    if NoDup(s.parts) { WithoutNoDup(s.parts, Ids(s.parts) - (LiveIds(s.history) + recent)); }
  }

  lemma RestartRemembers(s: State, loaded: seq<Id>, failed: set<Id>)
    requires Shape(s) && Enabled(s, Restart(loaded, failed))
    ensures Remembers(Step(s, Restart(loaded, failed)))
  {
    var t := Step(s, Restart(loaded, failed));
    forall i: nat | Seen(t, i) && !Dies(t, t.history[i].id)
      ensures t.history[i].id in t.parts || t.history[i].id in t.pending
    {
      assert s.history[..|s.history|] == s.history;
      LiveInPrefix(s.history, |s.history|, i);
      assert t.history[i].id in Ids(loaded) + failed;
    }
  }

  /**
   Installing a bootstrap snapshot forgets nothing exactly when no live own part was
   published after the snapshot was read: such a part is dropped, and its log entry will be
   skipped as the node's own.
   */
  lemma InstallRemembersIffCurrent(s: State, loaded: seq<Id>, failed: set<Id>, moved: bool)
    requires Shape(s) && Remembers(s) && Enabled(s, BootInstall(loaded, failed, moved))
    ensures Remembers(Step(s, BootInstall(loaded, failed, moved))) <==> SnapshotCurrent(s)
  {
    var t := Step(s, BootInstall(loaded, failed, moved));
    var n := s.boot.value;
    forall i: nat | i < n && !Dies(s, s.history[i].id)
      ensures s.history[i].id in t.parts || s.history[i].id in t.pending
    {
      assert !Superseded(s.history, n, s.history[i].id);
      LiveInPrefix(s.history, n, i);
      assert s.history[i].id in Ids(loaded) + failed;
    }
    if i: nat :| n <= i && Own(s, i) && s.inflight != Some(i) && !Dies(s, s.history[i].id) {
      var id := s.history[i].id;
      if id in LiveIds(s.history[..n]) {
        var k := LiveComesFromPrefix(s.history, n, id);
      }
      assert Seen(t, i);
      assert id !in Ids(loaded);
    }
  }

  lemma QuietRemembers(s: State, a: Action)
    requires Shape(s) && Remembers(s) && Enabled(s, a) && (a.Truncate? || a.BootRead? || a.BootFail?)
    ensures Remembers(Step(s, a))
  {
    var t := Step(s, a);
    forall i: nat | Seen(t, i) && !Dies(t, t.history[i].id)
      ensures t.history[i].id in t.parts || t.history[i].id in t.pending
    {
      assert Seen(s, i) && !Dies(s, s.history[i].id);
    }
  }

  lemma StepRemembers(s: State, a: Action)
    requires Shape(s) && Remembers(s) && Enabled(s, a)
    requires a.BootInstall? ==> SnapshotCurrent(s)
    ensures Remembers(Step(s, a))
  {
    match a {
      case OtherCommit(e) => CommitRemembers(s, a);
      case OwnCommit(e) => CommitRemembers(s, a);
      case Publish => PublishRemembers(s);
      case Apply(fetched) => ApplyRemembers(s, fetched);
      case Retry(id, checked, fetched) => RetryRemembers(s, id, checked, fetched);
      case BootInstall(loaded, failed, moved) => InstallRemembersIffCurrent(s, loaded, failed, moved);
      case Collect(recent) => CollectRemembers(s, recent);
      case Restart(loaded, failed) => RestartRemembers(s, loaded, failed);
      case _ => QuietRemembers(s, a);
    }
  }
}
