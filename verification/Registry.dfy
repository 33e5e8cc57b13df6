/** The shared part log. */
module Registry {
  // The shared registry: a versioned key/value store that any number of nodes append the
  // part log to, read bootstrap snapshots from and truncate. A step is one request to the
  // store, so everything between two requests of one client can be interleaved with others.

  import opened Prelude
  import opened PartLog

  const MAX_TXN_DELETES := 64

  /** The part keys at one store revision, and how many log entries were committed by then. */
  datatype Version = Version(parts: map<Id, Info>, len: nat)

  /** One AppendLog call, between two of its requests. */
  datatype Attempt =
    | Reading(e: LogEntry)
    | NeedBase(e: LogEntry) // the log prefix was empty, the base key is read next
    | Ready(e: LogEntry, index: nat, revision: nat)
    | Deleting(rest: set<Id>) // committed; old parts beyond the first transaction remain

  /** One LogCleanup call: the active nodes, then also the pointers, as it saw them. */
  datatype Cleaner = SawNodes(view: set<NodeId>) | SawPointers(view: set<NodeId>, ptrs: map<NodeId, nat>)

  /** One GetBootstrapSnapshot call after its first read. */
  datatype Reader = Reader(index: nat, revision: nat)

  datatype Store = Store(
    rev: nat,
    log: map<nat, LogEntry>,
    base: Option<nat>, // the base key and the revision that last wrote it
    baseMod: nat,
    parts: map<Id, Info>,
    pointers: map<NodeId, nat>,
    nodes: set<NodeId>,
    past: seq<Version>, // by revision
    history: seq<LogEntry>, // every committed entry, truncated or not
    low: nat, // how many of them have been truncated
    used: set<Id>,
    attempts: map<nat, Attempt>,
    cleaners: map<nat, Cleaner>,
    readers: map<nat, Reader>)

  datatype Action =
    | Begin(c: nat, e: LogEntry)
    | ReadLast(c: nat, seen: Option<nat>)
    | ReadBase(c: nat)
    | Commit(c: nat)
    | GiveUp(c: nat)
    | DeleteBatch(c: nat, batch: set<Id>)
    | SetPointer(n: NodeId, p: nat)
    | Register(n: NodeId)
    | Expire(n: NodeId)
    | CleanNodes(k: nat)
    | CleanPointers(k: nat)
    | CleanDelete(k: nat, m: nat)
    | SnapLog(k: nat, seen: Option<nat>)
    | SnapParts(k: nat)

  const EMPTY := Store(1, map[], None, 0, map[], map[], {}, [Version(map[], 0), Version(map[], 0)],
                       [], 0, {}, map[], map[], map[])

  // ---------- requests ----------

  /** The answer of a read of the last log key. */
  ghost predicate LastKey(log: map<nat, LogEntry>, seen: Option<nat>)
  {
    match seen
    case None => log == map[]
    case Some(q) => q in log && forall x :: x in log ==> x <= q
  }

  function PointerOf(ptrs: map<NodeId, nat>, n: NodeId): nat { if n in ptrs then ptrs[n] else 0 }

  /** The least pointer among the nodes of a view; a node without a pointer counts as 0. */
  ghost predicate IsMinPointer(view: set<NodeId>, ptrs: map<NodeId, nat>, m: nat)
  {
    && (forall n :: n in view ==> m <= PointerOf(ptrs, n))
    && (exists n :: n in view && m == PointerOf(ptrs, n))
  }

  function FirstBatch(e: LogEntry): set<Id>
  {
    if e.merge then Ids(e.olds[..Min(|e.olds|, MAX_TXN_DELETES)]) else {}
  }

  function Remaining(e: LogEntry): set<Id>
  {
    if e.merge && |e.olds| > MAX_TXN_DELETES then Ids(e.olds[MAX_TXN_DELETES..]) else {}
  }

  ghost predicate Enabled(s: Store, a: Action)
  {
    match a
    case Begin(c, e) => c !in s.attempts && e.id !in s.used && forall o :: o in e.olds ==> Added(s.history, |s.history|, o)
    case ReadLast(c, seen) => c in s.attempts && s.attempts[c].Reading? && LastKey(s.log, seen)
    case ReadBase(c) => c in s.attempts && s.attempts[c].NeedBase?
    case Commit(c) => c in s.attempts && s.attempts[c].Ready?
    case GiveUp(c) => c in s.attempts
    case DeleteBatch(c, batch) => c in s.attempts && s.attempts[c].Deleting? && batch <= s.attempts[c].rest
    case SetPointer(n, p) => p <= |s.history|
    case Register(_) => true
    case Expire(_) => true
    case CleanNodes(k) => k !in s.cleaners
    case CleanPointers(k) => k in s.cleaners && s.cleaners[k].SawNodes?
    case CleanDelete(k, m) =>
      && k in s.cleaners && s.cleaners[k].SawPointers? && m > 0
      && IsMinPointer(s.cleaners[k].view, s.cleaners[k].ptrs, m)
    case SnapLog(k, seen) => k !in s.readers && LastKey(s.log, seen)
    case SnapParts(k) => k in s.readers
  }

  /** A write that leaves the part keys and the log length as given, at the next revision. */
  function Bump(s: Store, parts: map<Id, Info>, history: seq<LogEntry>): Store
  {
    s.(rev := s.rev + 1, parts := parts, history := history, past := s.past + [Version(parts, |history|)])
  }

  /** The transaction commits iff nobody wrote the base key after the revision that was read. */
  predicate TxnSucceeds(s: Store, a: Attempt)
    requires a.Ready?
  {
    s.baseMod < a.revision + 1
  }

  function Committed(s: Store, c: nat, a: Attempt): Store
    requires a.Ready?
  {
    var e := a.e;
    var t := Bump(s, s.parts[e.id := e.info] - FirstBatch(e), s.history + [e]);
    t.(base := Some(a.index), baseMod := t.rev, log := s.log[a.index := e],
       attempts := if Remaining(e) != {} then s.attempts[c := Deleting(Remaining(e))] else s.attempts - {c})
  }

  function Truncated(log: map<nat, LogEntry>, m: nat): map<nat, LogEntry>
  {
    map q | q in log && q >= m :: log[q]
  }

  function Step(s: Store, a: Action): Store
    requires Enabled(s, a)
  {
    match a
    case Begin(c, e) => s.(attempts := s.attempts[c := Reading(e)], used := s.used + {e.id})
    case ReadLast(c, seen) =>
      var e := s.attempts[c].e;
      s.(attempts := s.attempts[c := if seen.Some? then Ready(e, seen.value + 1, s.rev) else NeedBase(e)])
    case ReadBase(c) =>
      var index := if s.base.Some? then s.base.value + 1 else 1;
      s.(attempts := s.attempts[c := Ready(s.attempts[c].e, index, s.rev)])
    case Commit(c) =>
      var t := s.attempts[c];
      if TxnSucceeds(s, t) then Committed(s, c, t)
      else s.(attempts := s.attempts[c := Reading(t.e)])
    case GiveUp(c) => s.(attempts := s.attempts - {c})
    case DeleteBatch(c, batch) => Bump(s, s.parts - batch, s.history)
    case SetPointer(n, p) => Bump(s, s.parts, s.history).(pointers := s.pointers[n := p])
    case Register(n) => Bump(s, s.parts, s.history).(nodes := s.nodes + {n})
    case Expire(n) => Bump(s, s.parts, s.history).(nodes := s.nodes - {n})
    case CleanNodes(k) => s.(cleaners := s.cleaners[k := SawNodes(s.nodes)])
    case CleanPointers(k) => s.(cleaners := s.cleaners[k := SawPointers(s.cleaners[k].view, s.pointers)])
    case CleanDelete(k, m) =>
      Bump(s, s.parts, s.history).(log := Truncated(s.log, m),
                                   low := if s.low < m - 1 then m - 1 else s.low,
                                   cleaners := s.cleaners - {k})
    case SnapLog(k, seen) =>
      s.(readers := s.readers[k := Reader(if seen.Some? then seen.value else 0, s.rev)])
    case SnapParts(k) => s.(readers := s.readers - {k})
  }

  /** The parts GetBootstrapSnapshot returns: its second read, at the revision of the first. */
  function SnapshotParts(s: Store, r: Reader): map<Id, Info>
    requires r.revision < |s.past|
  {
    s.past[r.revision].parts
  }

  // ---------- the invariant ----------

  /** The surviving log is the untruncated suffix of the history, at its own indices. */
  ghost predicate LogOk(s: Store)
  {
    && (s.history == [] ==> s.low == 0)
    && (s.history != [] ==> s.low < |s.history|)
    && (forall i :: i in s.log <==> s.low < i <= |s.history|)
    && (forall i :: i in s.log ==> s.log[i] == s.history[i - 1])
  }

  ghost predicate BaseOk(s: Store)
  {
    && s.base == (if s.history == [] then None else Some(|s.history|))
    && s.baseMod <= s.rev
  }

  /** An old part that did not fit the transaction of the merge that superseded it. */
  ghost predicate Leftover(h: seq<LogEntry>, o: Id)
  {
    exists k :: 0 <= k < |h| && o in Remaining(h[k])
  }

  /** The part keys are the fold of the log, apart from leftovers. */
  ghost predicate Covers(parts: map<Id, Info>, h: seq<LogEntry>)
  {
    && (forall o :: o in Fold(h) ==> o in parts && parts[o] == Fold(h)[o])
    && (forall o :: o in parts ==> o in Fold(h) || Leftover(h, o))
  }

  ghost predicate PastOk(s: Store)
  {
    && |s.past| == s.rev + 1
    && s.past[s.rev] == Version(s.parts, |s.history|)
    && (forall r :: 0 <= r <= s.rev ==> s.past[r].len <= |s.history| && Covers(s.past[r].parts, s.history[..s.past[r].len]))
  }

  ghost predicate AttemptOk(s: Store, a: Attempt)
  {
    match a
    case Deleting(rest) => forall o :: o in rest ==> Leftover(s.history, o)
    case _ =>
      && a.e.id in s.used && !Added(s.history, |s.history|, a.e.id)
      && (forall o :: o in a.e.olds ==> Added(s.history, |s.history|, o))
      && (a.Ready? ==> a.revision <= s.rev && (s.baseMod <= a.revision ==> a.index == |s.history| + 1))
  }

  ghost predicate AttemptsOk(s: Store)
  {
    && (forall c :: c in s.attempts ==> AttemptOk(s, s.attempts[c]))
    && (forall c, d :: c in s.attempts && d in s.attempts && c != d && !s.attempts[c].Deleting? && !s.attempts[d].Deleting?
                       ==> s.attempts[c].e.id != s.attempts[d].e.id)
    && (forall o :: Added(s.history, |s.history|, o) ==> o in s.used)
  }

  ghost predicate ClientsOk(s: Store)
  {
    && (forall n :: n in s.pointers ==> s.pointers[n] <= |s.history|)
    && (forall k :: k in s.cleaners && s.cleaners[k].SawPointers? ==>
          forall n :: n in s.cleaners[k].ptrs ==> s.cleaners[k].ptrs[n] <= |s.history|)
    && (forall k :: k in s.readers ==> s.readers[k].revision < |s.past| && s.readers[k].index == s.past[s.readers[k].revision].len)
  }

  ghost predicate Inv(s: Store)
  {
    && WellFormed(s.history)
    && LogOk(s) && BaseOk(s) && PastOk(s) && AttemptsOk(s) && ClientsOk(s)
  }

  // ---------- every step keeps the invariant ----------

  lemma AddedSnoc(h: seq<LogEntry>, e: LogEntry, o: Id)
    ensures Added(h + [e], |h| + 1, o) <==> Added(h, |h|, o) || o == e.id
  {
    var g := h + [e];
    if Added(g, |g|, o) {
      var k :| 0 <= k < |g| && g[k].id == o;
      assert k < |h| ==> h[k].id == o;
    }
    if Added(h, |h|, o) {
      var k :| 0 <= k < |h| && h[k].id == o;
      assert g[k].id == o;
    }
    if o == e.id { assert g[|h|].id == o; }
  }

  lemma LeftoverSnoc(h: seq<LogEntry>, e: LogEntry, o: Id)
    ensures Leftover(h + [e], o) <==> Leftover(h, o) || o in Remaining(e)
  {
    var g := h + [e];
    if Leftover(g, o) {
      var k :| 0 <= k < |g| && o in Remaining(g[k]);
      assert k < |h| ==> o in Remaining(h[k]);
    }
    if Leftover(h, o) {
      var k :| 0 <= k < |h| && o in Remaining(h[k]);
      assert o in Remaining(g[k]);
    }
    if o in Remaining(e) { assert o in Remaining(g[|h|]); }
  }

  lemma LeftoverIsDead(h: seq<LogEntry>, o: Id)
    requires WellFormed(h) && Leftover(h, o)
    ensures o !in Fold(h)
  {
    var k :| 0 <= k < |h| && o in Remaining(h[k]);
    assert o in Dead(h[k]);
    FoldLive(h, o);
  }

  lemma DeadSplits(e: LogEntry)
    ensures Dead(e) == FirstBatch(e) + Remaining(e)
  {
    if e.merge && |e.olds| > MAX_TXN_DELETES {
      assert e.olds == e.olds[..MAX_TXN_DELETES] + e.olds[MAX_TXN_DELETES..];
    } else if e.merge {
      assert e.olds[..|e.olds|] == e.olds;
    }
  }

  lemma CommitCovers(s: Store, e: LogEntry)
    requires Inv(s) && !Added(s.history, |s.history|, e.id)
    requires forall o :: o in e.olds ==> Added(s.history, |s.history|, o)
    ensures Covers(s.parts[e.id := e.info] - FirstBatch(e), s.history + [e])
  {
    var h, g := s.history, s.history + [e];
    assert Covers(s.parts, h) by { assert h[..|h|] == h; assert s.past[s.rev].len == |h|; }
    assert g[..|h|] == h;
    assert Fold(g) == Fold(h)[e.id := e.info] - Dead(e);
    DeadSplits(e);
    assert e.id !in Dead(e);
    forall o | o in s.parts[e.id := e.info] - FirstBatch(e) ensures o in Fold(g) || Leftover(g, o) {
      LeftoverSnoc(h, e, o);
    }
  }

  lemma CommitKeepsPast(s: Store, c: nat)
    requires Inv(s) && Enabled(s, Commit(c)) && TxnSucceeds(s, s.attempts[c])
    ensures PastOk(Step(s, Commit(c)))
  {
    var e := s.attempts[c].e;
    assert AttemptOk(s, s.attempts[c]);
    CommitCovers(s, e);
    var t := Step(s, Commit(c));
    forall r | 0 <= r <= t.rev
      ensures t.past[r].len <= |t.history| && Covers(t.past[r].parts, t.history[..t.past[r].len])
    {
      if r <= s.rev { assert t.history[..s.past[r].len] == s.history[..s.past[r].len]; }
      else { assert t.history[..|t.history|] == t.history; }
    }
  }

  lemma CommitKeepsAttempts(s: Store, c: nat)
    requires Inv(s) && Enabled(s, Commit(c)) && TxnSucceeds(s, s.attempts[c])
    ensures AttemptsOk(Step(s, Commit(c)))
  {
    var e := s.attempts[c].e;
    var t := Step(s, Commit(c));
    assert AttemptOk(s, s.attempts[c]);
    forall o ensures Added(t.history, |t.history|, o) <==> Added(s.history, |s.history|, o) || o == e.id {
      AddedSnoc(s.history, e, o);
    }
    forall o ensures Leftover(t.history, o) <==> Leftover(s.history, o) || o in Remaining(e) {
      LeftoverSnoc(s.history, e, o);
    }
    forall d | d in t.attempts ensures AttemptOk(t, t.attempts[d]) {
      if d != c { assert AttemptOk(s, s.attempts[d]); }
    }
  }

  lemma CommitIndex(s: Store, c: nat)
    requires AttemptsOk(s) && Enabled(s, Commit(c)) && TxnSucceeds(s, s.attempts[c])
    ensures s.attempts[c].index == |s.history| + 1
    ensures !Added(s.history, |s.history|, s.attempts[c].e.id)
    ensures forall o :: o in s.attempts[c].e.olds ==> Added(s.history, |s.history|, o)
  {
    assert AttemptOk(s, s.attempts[c]);
  }

  lemma CommitKeepsLog(s: Store, c: nat)
    requires LogOk(s) && BaseOk(s) && ClientsOk(s)
    requires Enabled(s, Commit(c)) && TxnSucceeds(s, s.attempts[c]) && s.attempts[c].index == |s.history| + 1
    ensures LogOk(Step(s, Commit(c))) && BaseOk(Step(s, Commit(c))) && ClientsOk(Step(s, Commit(c)))
  {
  }

  /** The heart of AppendLog: a committed entry gets the next index, and every other client's read is now stale. */
  lemma CommitKeepsInv(s: Store, c: nat)
    requires Inv(s) && Enabled(s, Commit(c)) && TxnSucceeds(s, s.attempts[c])
    ensures s.attempts[c].index == |s.history| + 1
    ensures Inv(Step(s, Commit(c)))
  {
    hide WellFormed, LogOk, BaseOk, PastOk, AttemptsOk, ClientsOk;
    CommitIndex(s, c);
    WellFormedSnoc(s.history, s.attempts[c].e);
    CommitKeepsPast(s, c);
    CommitKeepsAttempts(s, c);
    CommitKeepsLog(s, c);
  }

  lemma AttemptsCarry(s: Store, t: Store, c: nat)
    requires Inv(s)
    requires t.history == s.history && t.used == s.used && t.rev >= s.rev && t.baseMod == s.baseMod
    requires forall d :: d in t.attempts && d != c ==> d in s.attempts && t.attempts[d] == s.attempts[d]
    requires c in t.attempts ==> AttemptOk(t, t.attempts[c])
    requires c in t.attempts ==> c in s.attempts
    requires c in t.attempts && !t.attempts[c].Deleting? ==> !s.attempts[c].Deleting? && t.attempts[c].e == s.attempts[c].e
    ensures AttemptsOk(t)
  {
    forall d | d in t.attempts ensures AttemptOk(t, t.attempts[d]) {
      if d != c { assert AttemptOk(s, s.attempts[d]); }
    }
  }

  lemma BeginKeepsInv(s: Store, c: nat, e: LogEntry)
    requires Inv(s) && Enabled(s, Begin(c, e))
    ensures Inv(Step(s, Begin(c, e)))
  {
    var t := Step(s, Begin(c, e));
    forall d | d in t.attempts ensures AttemptOk(t, t.attempts[d]) {
      if d != c { assert AttemptOk(s, s.attempts[d]); }
    }
  }

  lemma LastKeyIsLength(s: Store, seen: Option<nat>)
    requires LogOk(s) && LastKey(s.log, seen)
    ensures seen == if s.history == [] then None else Some(|s.history|)
  {
    if s.history != [] { assert |s.history| in s.log; }
  }

  lemma ReadLastAttempt(s: Store, c: nat, seen: Option<nat>)
    requires Inv(s) && Enabled(s, ReadLast(c, seen))
    ensures AttemptsOk(Step(s, ReadLast(c, seen)))
  {
    LastKeyIsLength(s, seen);
    assert AttemptOk(s, s.attempts[c]);
    AttemptsCarry(s, Step(s, ReadLast(c, seen)), c);
  }

  lemma RequestAttempt(s: Store, a: Action)
    requires Inv(s) && Enabled(s, a)
    requires a.ReadBase? || a.GiveUp? || (a.Commit? && !TxnSucceeds(s, s.attempts[a.c]))
    ensures AttemptsOk(Step(s, a))
  {
    assert AttemptOk(s, s.attempts[a.c]);
    AttemptsCarry(s, Step(s, a), a.c);
  }

  lemma RequestKeepsInv(s: Store, a: Action)
    requires Inv(s) && Enabled(s, a)
    requires a.ReadLast? || a.ReadBase? || a.GiveUp? || (a.Commit? && !TxnSucceeds(s, s.attempts[a.c]))
    ensures Inv(Step(s, a))
  {
    hide AttemptsOk, Covers, WellFormed;
    if a.ReadLast? { ReadLastAttempt(s, a.c, a.seen); } else { RequestAttempt(s, a); }
    assert Step(s, a) == s.(attempts := Step(s, a).attempts);
  }

  /** Writes that do not touch the log: the part keys still cover the same history. */
  lemma BumpKeepsInv(s: Store, parts: map<Id, Info>)
    requires Inv(s) && Covers(parts, s.history)
    ensures Inv(Bump(s, parts, s.history))
  {
    var t := Bump(s, parts, s.history);
    assert s.history[..|s.history|] == s.history;
    AttemptsCarryAll(s, t);
  }

  lemma AttemptsCarryAll(s: Store, t: Store)
    requires Inv(s)
    requires t.history == s.history && t.used == s.used && t.attempts == s.attempts
    requires t.rev >= s.rev && t.baseMod == s.baseMod
    ensures AttemptsOk(t)
  {
    forall d | d in t.attempts ensures AttemptOk(t, t.attempts[d]) {
      assert AttemptOk(s, s.attempts[d]);
    }
  }

  lemma PartsCover(s: Store)
    requires Inv(s)
    ensures Covers(s.parts, s.history)
  {
    assert s.history[..|s.history|] == s.history;
    assert s.past[s.rev].len == |s.history|;
  }

  lemma DeleteBatchKeepsInv(s: Store, c: nat, batch: set<Id>)
    requires Inv(s) && Enabled(s, DeleteBatch(c, batch))
    ensures Inv(Step(s, DeleteBatch(c, batch)))
  {
    PartsCover(s);
    assert AttemptOk(s, s.attempts[c]);
    forall o | o in batch ensures o !in Fold(s.history) { LeftoverIsDead(s.history, o); }
    BumpKeepsInv(s, s.parts - batch);
  }

  lemma BumpKeepsPast(s: Store, t: Store)
    requires Inv(s) && t.rev == s.rev + 1 && t.parts == s.parts && t.history == s.history
    requires t.past == s.past + [Version(s.parts, |s.history|)]
    ensures PastOk(t)
  {
    PartsCover(s);
    assert s.history[..|s.history|] == s.history;
  }

  lemma NodeKeyKeepsClients(s: Store, a: Action)
    requires ClientsOk(s) && Enabled(s, a) && (a.SetPointer? || a.Register? || a.Expire?)
    ensures ClientsOk(Step(s, a))
  {
  }

  lemma NodeKeyKeepsInv(s: Store, a: Action)
    requires Inv(s) && Enabled(s, a) && (a.SetPointer? || a.Register? || a.Expire?)
    ensures Inv(Step(s, a))
  {
    hide Covers, AttemptOk, WellFormed, ClientsOk, AttemptsOk, PastOk;
    var t := Step(s, a);
    NodeKeyKeepsClients(s, a);
    BumpKeepsPast(s, t);
    AttemptsCarryAll(s, t);
  }

  lemma TruncateKeepsLog(s: Store, t: Store, m: nat)
    requires LogOk(s) && 0 < m <= |s.history| && t.history == s.history
    requires t.log == Truncated(s.log, m) && t.low == if s.low < m - 1 then m - 1 else s.low
    ensures LogOk(t)
  {
  }

  lemma CleanDeleteBound(s: Store, k: nat, m: nat)
    requires ClientsOk(s) && Enabled(s, CleanDelete(k, m))
    ensures m <= |s.history|
    ensures ClientsOk(Step(s, CleanDelete(k, m)))
  {
    var n :| n in s.cleaners[k].view && m == PointerOf(s.cleaners[k].ptrs, n);
  }

  lemma CleanDeleteKeepsInv(s: Store, k: nat, m: nat)
    requires Inv(s) && Enabled(s, CleanDelete(k, m))
    ensures m <= |s.history|
    ensures Inv(Step(s, CleanDelete(k, m)))
  {
    hide WellFormed, LogOk, PastOk, AttemptsOk, ClientsOk;
    var t := Step(s, CleanDelete(k, m));
    CleanDeleteBound(s, k, m);
    TruncateKeepsLog(s, t, m);
    BumpKeepsPast(s, t);
    AttemptsCarryAll(s, t);
  }

  lemma SnapLogKeepsInv(s: Store, k: nat, seen: Option<nat>)
    requires Inv(s) && Enabled(s, SnapLog(k, seen))
    ensures Inv(Step(s, SnapLog(k, seen)))
  {
    hide Covers, AttemptOk, WellFormed;
    LastKeyIsLength(s, seen);
    AttemptsCarryAll(s, Step(s, SnapLog(k, seen)));
  }

  lemma ViewKeepsInv(s: Store, a: Action)
    requires Inv(s) && Enabled(s, a)
    requires a.CleanNodes? || a.CleanPointers? || a.SnapParts?
    ensures Inv(Step(s, a))
  {
    hide Covers, AttemptOk, WellFormed;
    ViewKeepsClients(s, a);
    AttemptsCarryAll(s, Step(s, a));
    hide ClientsOk, AttemptsOk;
  }

  lemma ViewKeepsClients(s: Store, a: Action)
    requires ClientsOk(s) && Enabled(s, a)
    requires a.CleanNodes? || a.CleanPointers? || a.SnapParts?
    ensures ClientsOk(Step(s, a))
  {
  }

  lemma StepKeepsInv(s: Store, a: Action)
    requires Inv(s) && Enabled(s, a)
    ensures Inv(Step(s, a))
  {
    match a {
      case Begin(c, e) => BeginKeepsInv(s, c, e);
      case Commit(c) =>
        if TxnSucceeds(s, s.attempts[c]) { CommitKeepsInv(s, c); } else { RequestKeepsInv(s, a); }
      case DeleteBatch(c, batch) => DeleteBatchKeepsInv(s, c, batch);
      case SetPointer(_, _) => NodeKeyKeepsInv(s, a);
      case Register(_) => NodeKeyKeepsInv(s, a);
      case Expire(_) => NodeKeyKeepsInv(s, a);
      case CleanDelete(k, m) => CleanDeleteKeepsInv(s, k, m);
      case CleanNodes(_) => ViewKeepsInv(s, a);
      case CleanPointers(_) => ViewKeepsInv(s, a);
      case SnapLog(k, seen) => SnapLogKeepsInv(s, k, seen);
      case SnapParts(_) => ViewKeepsInv(s, a);
      case _ => RequestKeepsInv(s, a);
    }
  }

  // ---------- runs ----------

  /** Any interleaving of requests of any number of clients, from an empty store. */
  ghost function Run(acts: seq<Action>): (s: Store)
    ensures Inv(s)
  {
    if acts == [] then
      InvEmpty();
      EMPTY
    else
      var s := Run(acts[..|acts| - 1]);
      var a := acts[|acts| - 1];
      if Enabled(s, a) then
        StepKeepsInv(s, a);
        Step(s, a)
      else s
  }

  lemma InvEmpty()
    ensures Inv(EMPTY)
  {
    assert EMPTY.history[..0] == [];
    assert Covers(map[], []);
  }

  /** A step appends at most one entry, the one its client was about to commit, at the next index. */
  lemma StepAppends(s: Store, a: Action)
    requires Inv(s) && Enabled(s, a)
    ensures var t := Step(s, a);
            t.history == s.history
            || (a.Commit? && s.attempts[a.c].Ready? && t.history == s.history + [s.attempts[a.c].e]
                && s.attempts[a.c].index == |t.history| && t.log[|t.history|] == s.attempts[a.c].e)
  {
    if a.Commit? && TxnSucceeds(s, s.attempts[a.c]) { CommitKeepsInv(s, a.c); }
  }

  /** Indices are never reused or skipped: a longer run only extends the numbered history. */
  lemma {:induction false} HistoryGrows(acts: seq<Action>, n: nat)
    requires n <= |acts|
    ensures Run(acts[..n]).history <= Run(acts).history
    decreases |acts|
  {
    if n < |acts| {
      var before := acts[..|acts| - 1];
      HistoryGrows(before, n);
      assert before[..n] == acts[..n];
      var s := Run(before);
      if Enabled(s, acts[|acts| - 1]) { StepAppends(s, acts[|acts| - 1]); }
    } else {
      assert acts[..n] == acts;
    }
  }

  /**
   In every run: the keys of the log are exactly the indices above the truncation point up
   to the number of committed entries, each holding the entry committed at that index, and
   the base key holds the last index.
   */
  lemma LogIsNumberedHistory(acts: seq<Action>)
    ensures var s := Run(acts);
            && (forall i :: i in s.log <==> s.low < i <= |s.history|)
            && (forall i :: i in s.log ==> s.log[i] == s.history[i - 1])
            && (s.history != [] ==> s.base == Some(|s.history|) && |s.history| in s.log)
  {
    var s := Run(acts);
    assert LogOk(s) && BaseOk(s);
  }

  lemma CoversIff(parts: map<Id, Info>, h: seq<LogEntry>)
    requires WellFormed(h) && Covers(parts, h)
    ensures parts == Fold(h) <==> forall o :: o in parts ==> !Leftover(h, o)
  {
    forall o | Leftover(h, o) ensures o !in Fold(h) { LeftoverIsDead(h, o); }
    if forall o :: o in parts ==> !Leftover(h, o) {
      assert parts.Keys == Fold(h).Keys;
    }
  }

  /** The part keys equal the fold of the whole history exactly when no leftover key is alive. */
  lemma PartsAreFoldIffNoLeftover(acts: seq<Action>)
    ensures var s := Run(acts);
            s.parts == Fold(s.history) <==> forall o :: o in s.parts ==> !Leftover(s.history, o)
  {
    PartsCover(Run(acts));
    CoversIff(Run(acts).parts, Run(acts).history);
  }

  ghost predicate SmallMerges(h: seq<LogEntry>)
  {
    forall k :: 0 <= k < |h| ==> |h[k].olds| <= MAX_TXN_DELETES
  }

  /** With at most 64 old parts per merge they always are, at every revision. */
  lemma CoversSmall(parts: map<Id, Info>, h: seq<LogEntry>)
    requires Covers(parts, h) && SmallMerges(h)
    ensures parts == Fold(h)
  {
    assert forall o :: !Leftover(h, o);
    assert parts.Keys == Fold(h).Keys;
  }

  lemma PartsAreFold(acts: seq<Action>)
    requires SmallMerges(Run(acts).history)
    ensures Run(acts).parts == Fold(Run(acts).history)
  {
    PartsCover(Run(acts));
    CoversSmall(Run(acts).parts, Run(acts).history);
  }

  lemma RemovalsDiffer(m: map<Id, Info>, first: set<Id>, rest: set<Id>)
    ensures m - first == m - (first + rest) <==> (rest - first) !! m.Keys
  {
    if (rest - first) !! m.Keys {
      assert (m - first).Keys == (m - (first + rest)).Keys;
    } else {
      var o :| o in rest - first && o in m;
      assert o in m - first && o !in m - (first + rest);
    }
  }

  /** A larger merge breaks the equality until its leftovers are deleted, if one of them is alive. */
  lemma LargeMergeLeavesLeftovers(s: Store, c: nat)
    requires Inv(s) && s.parts == Fold(s.history)
    requires Enabled(s, Commit(c)) && TxnSucceeds(s, s.attempts[c])
    ensures var t := Step(s, Commit(c)); var e := s.attempts[c].e;
            t.parts == Fold(t.history) <==> (Remaining(e) - FirstBatch(e)) !! s.parts.Keys
  {
    var e := s.attempts[c].e;
    assert !Added(s.history, |s.history|, e.id) && e.id !in Dead(e) by { assert AttemptOk(s, s.attempts[c]); }
    FoldSnoc(s.history, e);
    DeadSplits(e);
    RemovalsDiffer(s.parts[e.id := e.info], FirstBatch(e), Remaining(e));
  }

  lemma FoldSnoc(h: seq<LogEntry>, e: LogEntry)
    ensures Fold(h + [e]) == Fold(h)[e.id := e.info] - Dead(e)
  {
    assert (h + [e])[..|h|] == h;
  }

  // ---------- bootstrap snapshots ----------

  /** Applying the tail of the log to a set of parts. */
  function Replay(parts: map<Id, Info>, es: seq<LogEntry>): map<Id, Info>
  {
    if es == [] then parts
    else
      var e := es[|es| - 1];
      Replay(parts, es[..|es| - 1])[e.id := e.info] - Dead(e)
  }

  lemma {:induction false} ReplayTail(h: seq<LogEntry>, n: nat)
    requires n <= |h|
    ensures Replay(Fold(h[..n]), h[n..]) == Fold(h)
    decreases |h|
  {
    if n == |h| {
      assert h[..n] == h;
    } else {
      var g := h[..|h| - 1];
      assert g[..n] == h[..n] && h[n..][..|h| - n - 1] == g[n..];
      ReplayTail(g, n);
    }
  }

  /**
   GetBootstrapSnapshot, whatever commits and cleanups run between its two reads, returns
   the fold of the first `index` entries exactly when no leftover key was alive at the
   revision of its first read; then replaying the rest of the log gives the live parts.
   */
  lemma SnapshotIsFoldOfPrefix(acts: seq<Action>, k: nat)
    requires k in Run(acts).readers
    ensures var s := Run(acts); var r := s.readers[k];
            && r.index <= |s.history| && r.revision < |s.past|
            && (SnapshotParts(s, r) == Fold(s.history[..r.index])
                <==> forall o :: o in SnapshotParts(s, r) ==> !Leftover(s.history[..r.index], o))
            && (SnapshotParts(s, r) == Fold(s.history[..r.index])
                ==> Replay(SnapshotParts(s, r), s.history[r.index..]) == Fold(s.history))
  {
    var s := Run(acts);
    var r := s.readers[k];
    assert Covers(s.past[r.revision].parts, s.history[..s.past[r.revision].len]);
    WellFormedPrefix(s.history, r.index);
    CoversIff(SnapshotParts(s, r), s.history[..r.index]);
    ReplayTail(s.history, r.index);
  }

  // ---------- log cleanup ----------

  /** No node ever moves its pointer back. */
  ghost predicate PointersGrow(acts: seq<Action>)
  {
    acts == [] ||
    var before := acts[..|acts| - 1];
    var a := acts[|acts| - 1];
    PointersGrow(before) && (a.SetPointer? ==> PointerOf(Run(before).pointers, a.n) <= a.p)
  }

  /** What a cleaner saw of a pointer is at most what the pointer is now. */
  ghost predicate ViewsStale(s: Store)
  {
    forall k, n :: k in s.cleaners && s.cleaners[k].SawPointers?
                   ==> PointerOf(s.cleaners[k].ptrs, n) <= PointerOf(s.pointers, n)
  }

  lemma StepKeepsViews(s: Store, a: Action)
    requires ViewsStale(s) && Enabled(s, a)
    requires a.SetPointer? ==> PointerOf(s.pointers, a.n) <= a.p
    ensures ViewsStale(Step(s, a))
  {
    var t := Step(s, a);
    forall k, n | k in t.cleaners && t.cleaners[k].SawPointers?
      ensures PointerOf(t.cleaners[k].ptrs, n) <= PointerOf(t.pointers, n)
    {
      if k in s.cleaners && s.cleaners[k].SawPointers? {
        assert PointerOf(s.cleaners[k].ptrs, n) <= PointerOf(s.pointers, n);
      }
    }
  }

  lemma {:induction false} ViewsOnlyLag(acts: seq<Action>)
    requires PointersGrow(acts)
    ensures ViewsStale(Run(acts))
  {
    if acts != [] {
      var s := Run(acts[..|acts| - 1]);
      ViewsOnlyLag(acts[..|acts| - 1]);
      if Enabled(s, acts[|acts| - 1]) { StepKeepsViews(s, acts[|acts| - 1]); }
    }
  }

  /**
   A cleanup acting on nodes and pointers read at earlier moments removes no entry above
   the present pointer of any node in its view, provided that pointers only grow.
   */
  lemma CleanupSparesUnread(acts: seq<Action>, k: nat, m: nat, n: NodeId, i: nat)
    requires PointersGrow(acts) && Enabled(Run(acts), CleanDelete(k, m))
    requires n in Run(acts).cleaners[k].view
    requires i in Run(acts).log && PointerOf(Run(acts).pointers, n) < i
    ensures i in Step(Run(acts), CleanDelete(k, m)).log
  {
    ViewsOnlyLag(acts);
    assert m <= PointerOf(Run(acts).cleaners[k].ptrs, n);
  }

  /**
   For every run and every node: a cleanup spares all entries above the node's present
   pointer exactly when its bound does not pass the next entry the node needs, or all that
   it would delete is gone already.
   */
  lemma CleanupSparesIff(acts: seq<Action>, k: nat, m: nat, n: NodeId)
    requires Enabled(Run(acts), CleanDelete(k, m))
    ensures var s := Run(acts); var t := Step(s, CleanDelete(k, m)); var p := PointerOf(s.pointers, n);
            && ((forall i :: i in s.log && p < i ==> i in t.log) <==> !exists i :: i in s.log && p < i < m)
            && ((forall i :: i in s.log && p < i ==> i in t.log) <==> m <= p + 1 || m <= s.low + 1)
  {
    var s := Run(acts);
    var t := Step(s, CleanDelete(k, m));
    var p := PointerOf(s.pointers, n);
    CleanDeleteBound(s, k, m);
    assert LogOk(s);
    assert forall i :: i in t.log <==> i in s.log && i >= m;
    if m > p + 1 && m > s.low + 1 {
      var i := if s.low < p then p + 1 else s.low + 1;
      assert i in s.log && p < i < m;
    }
  }

  /** The least pointer and the node that may truncate: the first in order among the slowest. */
  method ChooseCoordinator(active: seq<NodeId>, ptrs: map<NodeId, nat>) returns (m: int, coord: Option<NodeId>)
    ensures coord.None? <==> active == []
    ensures active == [] ==> m == -1
    ensures active != [] ==>
              && m >= 0 && IsMinPointer(Ids(active), ptrs, m)
              && coord.value in active && PointerOf(ptrs, coord.value) == m
              && forall n :: n in active && PointerOf(ptrs, n) == m ==> coord.value <= n
  {
    m, coord := -1, None;
    var i := 0;
    while i < |active|
      invariant 0 <= i <= |active|
      invariant coord.None? <==> i == 0
      invariant i == 0 ==> m == -1
      invariant i > 0 ==>
                  && m >= 0 && coord.value in active[..i] && PointerOf(ptrs, coord.value) == m
                  && forall n :: n in active[..i] ==> m <= PointerOf(ptrs, n) && (PointerOf(ptrs, n) == m ==> coord.value <= n)
    {
      var id := active[i];
      var p := PointerOf(ptrs, id);
      assert active[..i + 1] == active[..i] + [id];
      if m < 0 || p < m || (p == m && id < coord.value) {
        m, coord := p, Some(id);
      }
      i := i + 1;
    }
    assert active[..i] == active;
  }
}
