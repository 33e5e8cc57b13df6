/** The part log and its fold. */
module PartLog {
  // The global mutation log of parts and its meaning: a fold into the set of live parts.

  import opened Prelude

  type Id = nat
  type NodeId = nat
  type Info = nat // the part metadata stored under its key

  datatype LogEntry = LogEntry(merge: bool, id: Id, info: Info, olds: seq<Id>, node: NodeId)

  function Ids(xs: seq<Id>): set<Id> { set x | x in xs }

  /** The old parts a log entry supersedes; a PUT supersedes none. */
  function Dead(e: LogEntry): set<Id> { if e.merge then Ids(e.olds) else {} }

  function Fold(h: seq<LogEntry>): map<Id, Info>
  {
    if h == [] then map[]
    else
      var e := h[|h| - 1];
      Fold(h[..|h| - 1])[e.id := e.info] - Dead(e)
  }

  /** Part IDs are never reused, and a merge names parts that the log has already added. */
  ghost predicate WellFormed(h: seq<LogEntry>)
  {
    && (forall i, j :: 0 <= i < j < |h| ==> h[i].id != h[j].id)
    && (forall i :: 0 <= i < |h| ==> forall o :: o in h[i].olds ==> Added(h, i, o))
  }

  /** Some entry before index `n` adds part `o`. */
  ghost predicate Added(h: seq<LogEntry>, n: nat, o: Id)
  {
    exists k :: 0 <= k < n && k < |h| && h[k].id == o
  }

  /** Some entry before index `n` supersedes part `o`. */
  ghost predicate Superseded(h: seq<LogEntry>, n: nat, o: Id)
  {
    exists k :: 0 <= k < n && k < |h| && o in Dead(h[k])
  }

  lemma WellFormedPrefix(h: seq<LogEntry>, n: nat)
    requires WellFormed(h) && n <= |h|
    ensures WellFormed(h[..n])
  {
    var g := h[..n];
    forall i, o | 0 <= i < |g| && o in g[i].olds ensures Added(g, i, o) {
      assert Added(h, i, o);
      var k :| 0 <= k < i && h[k].id == o;
      assert g[k].id == o;
    }
  }

  lemma WellFormedSnoc(h: seq<LogEntry>, e: LogEntry)
    requires WellFormed(h)
    requires !Added(h, |h|, e.id) && forall o :: o in e.olds ==> Added(h, |h|, o)
    ensures WellFormed(h + [e])
  {
    var g := h + [e];
    forall i, j | 0 <= i < j < |g| ensures g[i].id != g[j].id {
      if j == |h| { assert h[i].id == g[i].id; }
    }
    forall i, o | 0 <= i < |g| && o in g[i].olds ensures Added(g, i, o) {
      assert i < |h| ==> Added(h, i, o);
      var k :| 0 <= k < i && k < |h| && h[k].id == o;
      assert g[k].id == o;
    }
  }

  /** A part is live exactly when some entry added it and none superseded it. */
  lemma {:induction false} FoldLive(h: seq<LogEntry>, o: Id)
    requires WellFormed(h)
    ensures o in Fold(h) <==> Added(h, |h|, o) && !Superseded(h, |h|, o)
  {
    if h != [] {
      var n := |h| - 1;
      var g := h[..n];
      WellFormedPrefix(h, n);
      FoldLive(g, o);
      assert Added(h, |h|, o) <==> Added(g, n, o) || h[n].id == o by {
        if Added(h, |h|, o) {
          var k :| 0 <= k < |h| && h[k].id == o;
          assert k < n ==> g[k].id == o;
        }
        if Added(g, n, o) {
          var k :| 0 <= k < n && g[k].id == o;
          assert h[k].id == o;
        }
      }
      SupersededSnoc(h, o);
      if h[n].id == o { NotSupersededBefore(h, n, o); }
    }
  }

  lemma SupersededSnoc(h: seq<LogEntry>, o: Id)
    requires h != []
    ensures var n := |h| - 1;
            Superseded(h, |h|, o) <==> Superseded(h[..n], n, o) || o in Dead(h[n])
  {
    var n := |h| - 1;
    var g := h[..n];
    if Superseded(h, |h|, o) {
      var k :| 0 <= k < |h| && o in Dead(h[k]);
      assert k < n ==> o in Dead(g[k]);
    }
    if Superseded(g, n, o) {
      var k :| 0 <= k < n && o in Dead(g[k]);
      assert o in Dead(h[k]);
    }
  }

  /** Nothing supersedes a part before the entry that adds it. */
  lemma NotSupersededBefore(h: seq<LogEntry>, n: nat, o: Id)
    requires WellFormed(h) && n < |h| && h[n].id == o
    ensures !Superseded(h[..n], n, o)
  {
    forall k | 0 <= k < n ensures o !in Dead(h[k]) {
      assert !Added(h, k, o);
    }
  }
}
