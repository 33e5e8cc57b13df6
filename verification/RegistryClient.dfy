/** The registry as a node calls it. */
module RegistryClient {
  // The registry calls as a node makes them: requests with other nodes' requests in between.

  import opened Prelude
  import opened PartLog
  import opened Registry

  const MAX_TRIES := 100

  /** What client `c` may rely on between two of its requests, whatever the others do. */
  ghost predicate Undisturbed(s: Store, t: Store, c: nat)
  {
    && Inv(t)
    && s.history <= t.history && s.used <= t.used
    && (|t.history| == |s.history| ==> t.baseMod == s.baseMod)
    && (c in s.attempts <==> c in t.attempts)
    && (c in s.attempts ==> t.attempts[c] == s.attempts[c])
  }

  function ClientOf(a: Action): Option<nat>
  {
    match a
    case Begin(c, _) => Some(c)
    case ReadLast(c, _) => Some(c)
    case ReadBase(c) => Some(c)
    case Commit(c) => Some(c)
    case GiveUp(c) => Some(c)
    case DeleteBatch(c, _) => Some(c)
    case _ => None
  }

  lemma OthersLeaveAttempt(s: Store, a: Action, c: nat)
    requires Enabled(s, a) && ClientOf(a) != Some(c)
    ensures s.used <= Step(s, a).used
    ensures c in s.attempts <==> c in Step(s, a).attempts
    ensures c in s.attempts ==> Step(s, a).attempts[c] == s.attempts[c]
    ensures |Step(s, a).history| == |s.history| ==> Step(s, a).baseMod == s.baseMod
  {
  }

  /** Every request of anybody else is one that the client can rely on. */
  lemma OthersAreUndisturbing(s: Store, a: Action, c: nat)
    requires Inv(s) && Enabled(s, a) && ClientOf(a) != Some(c)
    ensures Undisturbed(s, Step(s, a), c)
  {
    StepKeepsInv(s, a);
    OthersLeaveAttempt(s, a, c);
    assert s.history <= Step(s, a).history by { StepAppends(s, a); }
  }

  /** The transaction of client `c`, if it were sent now, would take effect. */
  ghost predicate Current(s: Store, c: nat)
  {
    c in s.attempts && s.attempts[c].Ready? && TxnSucceeds(s, s.attempts[c])
  }

  /** A prepared transaction stays good as long as nobody adds an entry. */
  lemma CurrentUntilAppend(s: Store, t: Store, c: nat)
    requires Current(s, c) && Undisturbed(s, t, c)
    ensures Current(t, c) || |t.history| > |s.history|
  {}

  /** What can go wrong in one round: a request without effect, or the reply of the transaction. */
  datatype Fault = NoFault | RequestFails(round: nat) | ReplyLost(round: nat)

  /** The rounds that others must have won when a call with this fault failed without having taken effect. */
  function RoundsLost(fault: Fault): nat { if fault.NoFault? then MAX_TRIES else Min(fault.round, MAX_TRIES) }

  class Client {
    var store: Store // the remote store, as it is at each moment

    constructor ()
      ensures store == EMPTY
    {
      store := EMPTY;
    }

    /** Other nodes get to run; the caller only learns what Undisturbed says. */
    method Others(c: nat)
      requires Inv(store)
      modifies this
      ensures Undisturbed(old(store), store, c)
    {
    }

    /** Reads the log tail, then the base key if the log is empty, with others in between. */
    method ReadTail(c: nat)
      requires Inv(store) && c in store.attempts && store.attempts[c].Reading?
      modifies this
      ensures Inv(store) && old(store.history) <= store.history
      ensures c in store.attempts && store.attempts[c].Ready? && store.attempts[c].e == old(store.attempts[c].e)
      ensures Current(store, c) || |store.history| > old(|store.history|)
    {
      var seen: Option<nat> := None;
      if store.log != map[] {
        assert |store.history| in store.log by { LogNonEmpty(store); }
        var q :| q in store.log && forall x :: x in store.log ==> x <= q;
        seen := Some(q);
      }
      StepKeepsInv(store, ReadLast(c, seen));
      store := Step(store, ReadLast(c, seen));
      ghost var s1 := store;
      Others(c);
      if seen.Some? { CurrentUntilAppend(s1, store, c); }
      if store.attempts[c].NeedBase? {
        StepKeepsInv(store, ReadBase(c));
        store := Step(store, ReadBase(c));
        ghost var s2 := store;
        Others(c);
        CurrentUntilAppend(s2, store, c);
      }
    }

    /** The transaction: it adds the entry at the index it was built for, or changes nothing but the attempt; it does so exactly when nobody was first. */
    method TryCommit(c: nat) returns (index: Option<nat>)
      requires Inv(store) && c in store.attempts && store.attempts[c].Ready?
      modifies this
      ensures Inv(store) && (index.Some? <==> old(Current(store, c)))
      ensures index.Some? ==> store.history == old(store.history) + [old(store.attempts[c].e)] && index.value == |store.history|
      ensures index.None? ==> store.history == old(store.history) && c in store.attempts
                              && store.attempts[c] == Reading(old(store.attempts[c].e))
    {
      var ready := store.attempts[c];
      var won := TxnSucceeds(store, ready);
      StepKeepsInv(store, Commit(c));
      if won { CommitKeepsInv(store, c); }
      store := Step(store, Commit(c));
      index := if won then Some(ready.index) else None;
    }

    method Enter(c: nat, e: LogEntry)
      requires Inv(store) && Enabled(store, Begin(c, e))
      modifies this
      ensures Inv(store) && store.history == old(store.history)
      ensures c in store.attempts && store.attempts[c] == Reading(e)
    {
      StepKeepsInv(store, Begin(c, e));
      store := Step(store, Begin(c, e));
    }

    /** Ends the call, after DeleteOldParts or without it. */
    method Leave(c: nat)
      requires Inv(store)
      modifies this
      ensures Inv(store) && c !in store.attempts && store.history == old(store.history)
      ensures old(c in store.attempts && store.attempts[c].Reading?) ==>
                !Added(store.history, |store.history|, old(store.attempts[c].e.id))
    {
      if c in store.attempts {
        assert AttemptOk(store, store.attempts[c]);
        StepKeepsInv(store, GiveUp(c));
        store := Step(store, GiveUp(c));
      }
    }

    /** One round of the optimistic loop. */
    method OneTry(c: nat, e: LogEntry) returns (index: Option<nat>)
      requires Inv(store) && c in store.attempts && store.attempts[c] == Reading(e)
      modifies this
      ensures Inv(store) && old(store.history) <= store.history
      ensures index.Some? ==>
                old(|store.history|) < index.value == |store.history| && store.history[index.value - 1] == e
      ensures index.None? ==>
                c in store.attempts && store.attempts[c] == Reading(e) && |store.history| > old(|store.history|)
    {
      ReadTail(c);
      index := TryCommit(c);
    }

    /**
     Appends `e` to the log. Some(i) means that it is entry i and was not there before.
     None means that nobody will ever find it in the log, unless the reply to a
     transaction that took effect was lost, and that others won every round there was.
     */
    method AppendLog(c: nat, e: LogEntry, fault: Fault) returns (index: Option<nat>, ghost took: bool)
      requires Inv(store) && Enabled(store, Begin(c, e))
      modifies this
      ensures Inv(store) && c !in store.attempts && old(store.history) <= store.history
      ensures index.Some? ==>
                old(|store.history|) < index.value <= |store.history| && store.history[index.value - 1] == e
      ensures index.None? ==> (Added(store.history, |store.history|, e.id) <==> took)
      ensures took ==> index.None? && fault.ReplyLost?
      ensures index.None? ==> |store.history| >= old(|store.history|) + RoundsLost(fault)
    {
      hide Inv;
      Enter(c, e);
      var i := 0;
      index, took := None, false;
      while i < MAX_TRIES && index.None?
        invariant Inv(store) && old(store.history) <= store.history && !took && i <= MAX_TRIES
        invariant index.None? ==> |store.history| >= old(|store.history|) + i && (fault.NoFault? || i <= fault.round || fault.round >= MAX_TRIES)
        invariant index.None? ==> c in store.attempts && store.attempts[c] == Reading(e)
        invariant index.Some? ==>
                    old(|store.history|) < index.value <= |store.history| && store.history[index.value - 1] == e
      {
        if fault == RequestFails(i) {
          Leave(c);
          return;
        }
        index := OneTry(c, e);
        if fault == ReplyLost(i) {
          took := index.Some?;
          index := None;
          Leave(c);
          return;
        }
        i := i + 1;
      }
      Leave(c);
    }
  }

  lemma LogNonEmpty(s: Store)
    requires Inv(s) && s.log != map[]
    ensures |s.history| in s.log && forall x :: x in s.log ==> x <= |s.history|
  {
    var k :| k in s.log;
  }

  // ---------- deleting the old parts that did not fit ----------

  /** At most `k` elements of a set, as many as there are. */
  method TakeUpTo(s: set<Id>, k: nat) returns (b: set<Id>)
    ensures b <= s && |b| == Min(k, |s|)
  {
    b := {};
    var rest := s;
    while |b| < k && rest != {}
      invariant b !! rest && b + rest == s && |b| <= k
      decreases |rest|
    {
      var x :| x in rest;
      assert |b + {x}| == |b| + 1;
      b, rest := b + {x}, rest - {x};
    }
    assert |s| == |b| + |rest|;
  }

  /**
   Deletes the given part keys in batches, rereading what is alive before each batch. It
   can be repeated, leaves every other key alone, and succeeds exactly when the alive keys
   fit into all batches but the last round, which only confirms that none is left.
   */
  method DeleteOldParts(before: map<Id, Info>, olds: seq<Id>) returns (parts: map<Id, Info>, ok: bool)
    ensures ok <==> |Ids(olds) * before.Keys| <= (MAX_TRIES - 1) * MAX_TXN_DELETES
    ensures ok ==> parts == before - Ids(olds)
    ensures parts.Keys <= before.Keys && before.Keys - parts.Keys <= Ids(olds)
  {
    var want := Ids(olds);
    parts := before;
    var i := 0;
    ghost var n := |want * before.Keys|;
    while i < MAX_TRIES
      invariant 0 <= i <= MAX_TRIES
      invariant parts.Keys <= before.Keys && before.Keys - parts.Keys <= want
      invariant forall o :: o in parts ==> parts[o] == before[o]
      invariant |want * parts.Keys| == n - i * MAX_TXN_DELETES || (want * parts.Keys == {} && n <= i * MAX_TXN_DELETES)
      invariant i > 0 ==> n > (i - 1) * MAX_TXN_DELETES
    {
      var alive := want * parts.Keys;
      if alive == {} {
        assert parts.Keys == (before - want).Keys;
        return parts, true;
      }
      var batch := TakeUpTo(alive, MAX_TXN_DELETES);
      assert (want * (parts - batch).Keys) == alive - batch;
      assert |alive - batch| == |alive| - |batch|;
      parts := parts - batch;
      i := i + 1;
    }
    ok := false;
  }
}
