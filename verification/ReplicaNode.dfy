/** The lists of a replica. */
module ReplicaNode {
  // The replica's own lists and the loops that update them, refining the steps of Replica.

  import opened Prelude
  import opened PartLog
  import opened Replica

  /** The list without the given parts, in the same order. */
  method Filter(xs: seq<Id>, dead: set<Id>) returns (next: seq<Id>)
    ensures next == Without(xs, dead)
  {
    next := [];
    var i := 0;
    while i < |xs|
      invariant 0 <= i <= |xs|
      invariant next == Without(xs[..i], dead)
    {
      assert xs[..i + 1][..i] == xs[..i];
      if xs[i] !in dead { next := next + [xs[i]]; }
      i := i + 1;
    }
    assert xs[..i] == xs;
  }

  lemma {:induction false} WithoutNothing(parts: seq<Id>)
    ensures Without(parts, {}) == parts
  {
    if parts != [] {
      WithoutNothing(parts[..|parts| - 1]);
      assert parts == parts[..|parts| - 1] + [parts[|parts| - 1]];
    }
  }

  /** Walks a snapshot in any order: parts on disk or fetched are loaded, the others are not. */
  method LoadParts(snap: set<Id>, reachable: set<Id>) returns (loaded: seq<Id>, failed: set<Id>)
    ensures Loads(snap, loaded, failed) && failed == snap - reachable
  {
    loaded, failed := [], {};
    var rest := snap;
    while rest != {}
      invariant rest <= snap && NoDup(loaded)
      invariant Ids(loaded) == (snap - rest) * reachable
      invariant failed == (snap - rest) - reachable
      decreases rest
    {
      var id :| id in rest;
      assert id !in Ids(loaded);
      rest := rest - {id};
      if id in reachable {
        assert Ids(loaded + [id]) == Ids(loaded) + {id};
        loaded := loaded + [id];
      } else {
        failed := failed + {id};
      }
    }
  }

  class Node {
    const me: NodeId
    var parts: seq<Id>
    var pending: map<Id, seq<Id>>

    constructor (me: NodeId)
      ensures this.me == me && parts == [] && pending == map[]
    {
      this.me := me;
      parts, pending := [], map[];
    }

    /** Publishes a new part in place of the parts it supersedes, once. */
    method SwapIn(e: LogEntry)
      modifies this`parts
      ensures parts == Replace(old(parts), e)
    {
      var next := Filter(parts, Dead(e));
      if e.id !in next { next := next + [e.id]; }
      parts := next;
    }

    /** Applies the next log entry; a part that cannot be fetched is deferred. */
    method ApplyLogEntry(ghost s: State, e: LogEntry, fetched: bool)
      requires s.me == me && s.parts == parts && s.pending == pending
      requires Enabled(s, Apply(fetched)) && s.history[s.pointer] == e
      modifies this
      ensures var t := Step(s, Apply(fetched));
              parts == t.parts && pending == t.pending
    {
      if e.node == me { return; }
      if !fetched {
        pending := pending[e.id := e.olds];
        return;
      }
      SwapIn(e);
      var i := 0;
      ghost var before := pending;
      if e.merge {
        while i < |e.olds|
          invariant 0 <= i <= |e.olds|
          invariant parts == Replace(s.parts, e)
          invariant pending == before - Ids(e.olds[..i])
        {
          assert e.olds[..i + 1] == e.olds[..i] + [e.olds[i]];
          assert Ids(e.olds[..i + 1]) == Ids(e.olds[..i]) + {e.olds[i]};
          pending := pending - {e.olds[i]};
          i := i + 1;
        }
        assert e.olds[..i] == e.olds;
      }
    }

    /** One deferred part: dropped if known to be superseded, listed if it can be fetched now. `check` is None when the registry could not be asked. */
    method RetryPendingPart(ghost s: State, id: Id, check: Option<bool>, fetched: bool)
      requires s.parts == parts && s.pending == pending && Enabled(s, Retry(id, check.Some?, fetched))
      requires check.Some? ==> (check.value <==> id in LiveIds(s.history))
      modifies this
      ensures var t := Step(s, Retry(id, check.Some?, fetched));
              parts == t.parts && pending == t.pending
      ensures check == Some(false) || fetched ==> id !in pending
      ensures check != Some(false) && fetched ==> forall x :: x in parts <==> x == id || (x in old(parts) && x !in old(pending)[id])
      ensures check == Some(false) || !fetched ==> parts == old(parts)
    {
      if check == Some(false) {
        pending := pending - {id};
        return;
      }
      if !fetched { return; }
      var olds := pending[id];
      if |olds| > 0 {
        parts := Filter(parts, Ids(olds));
      } else {
        assert Ids(olds) == {};
        WithoutNothing(parts);
      }
      parts := parts + [id];
      pending := pending - {id};
    }

    /** Keeps live parts and parts whose file is too young to judge. */
    method RunGC(ghost s: State, active: set<Id>, recent: set<Id>)
      requires s.parts == parts && active == LiveIds(s.history)
      modifies this`parts
      ensures parts == Step(s, Collect(recent)).parts
      ensures forall x :: x in parts <==> x in old(parts) && (x in active || x in recent)
    {
      parts := Filter(parts, Ids(parts) - (active + recent));
    }

    /** Loads a snapshot: reachable parts are listed, the others deferred, the rest forgotten. */
    method BootstrapFromParts(ghost s: State, snap: set<Id>, reachable: set<Id>) returns (failed: set<Id>)
      requires s.parts == parts && s.pending == pending
      requires s.boot.Some? && s.boot.value <= |s.history| && snap == LiveIds(s.history[..s.boot.value])
      modifies this
      ensures failed == snap - reachable
      ensures Enabled(s, BootInstall(parts, failed, true))
      ensures pending == Step(s, BootInstall(parts, failed, true)).pending
    {
      var loaded;
      loaded, failed := LoadParts(snap, reachable);
      parts := loaded;
      var all := pending + Deferred(failed);
      pending := map x | x in all && x in snap :: all[x];
    }
  }
}
