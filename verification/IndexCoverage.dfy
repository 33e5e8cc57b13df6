/** Which data parts are covered. */
module IndexCoverage {
  // Which data parts the index may speak for. A data part is marked covered after its entries
  // are written; flushes, compactions and crashes move or drop entries underneath. The
  // question is whether a covered, still existing data part always has all its label tokens
  // in the memtable or in an index part.

  import opened Prelude
  import Bloom
  import Tokens

  datatype Pair = Pair(token: Str, id: Str)

  /** One Write call: the tokens of one data part, one log line each, in this order. */
  datatype Batch = Batch(id: Str, tokens: seq<Str>)

  function Toks(b: Batch): set<Str> { set t | t in b.tokens }

  function BatchLines(b: Batch): (r: seq<Pair>)
    ensures |r| == |b.tokens| && forall i :: 0 <= i < |r| ==> r[i] == Pair(b.tokens[i], b.id)
  {
    seq(|b.tokens|, i requires 0 <= i < |b.tokens| => Pair(b.tokens[i], b.id))
  }

  /** The lines of several batches in the order they were enqueued. */
  function Lines(bs: seq<Batch>): seq<Pair>
  {
    if bs == [] then [] else Lines(bs[..|bs| - 1]) + BatchLines(bs[|bs| - 1])
  }

  function Elems(ps: seq<Pair>): set<Pair> { set p | p in ps }

  function Pairs(b: Batch): set<Pair> { Elems(BatchLines(b)) }

  /** What lines appended to a file can be read back: behind a torn line the first one is glued to it and lost. */
  function Landed(torn: bool, lines: seq<Pair>): set<Pair>
  {
    if torn && lines != [] then Elems(lines[1..]) else Elems(lines)
  }

  /**
   The engine between steps. mem, snap (a flush in progress), l0 and l1 are what a lookup
   reads; active, sealed and old are the WAL segments, old those a successful flush has
   made redundant, and what was never synced in a retired one; limbo is what a failed write
   or fsync left unsynced in the active segment, until a later fsync of it. torn says that
   the active segment ends in an unterminated line, dirty that it may have unsynced bytes.
   */
  datatype State = State(
    mem: set<Pair>, snap: set<Pair>, flushing: bool,
    active: set<Pair>, sealed: set<Pair>, old_: set<Pair>, limbo: set<Pair>, torn: bool, dirty: bool,
    l0: seq<set<Pair>>, l1: set<Pair>, chosen: nat,
    inflight: seq<Batch>, synced: set<Batch>,
    covered: set<Str>, disk: set<Str>, dead: set<Str>)

  datatype Action =
    | Enqueue(b: Batch)                            // Write: WAL enqueue and memtable, under writeMu
    | SyncOk(n: nat)                               // group commit done: the first n waiting Writes return nil
    | SyncFail(n: nat, k: nat, tear: bool)         // they return an error; k lines reached the file, and part of the next
    | Mark(b: Batch, saved: bool)                  // MarkCovered after a Write that returned nil
    | FlushBegin                                   // snapshot and seal; a failed seal puts the snapshot straight back
    | FlushOk                                      // part published
    | FlushFail                                    // any later stage failed: entries put back
    | Discard(kept: set<Pair>)                     // redundant segments removed, perhaps not all
    | CompactBegin                                 // the level-0 list is read
    | CompactEnd(live: set<Str>, saved: bool)      // merged part published, covered list cleaned and saved or not
    | Retire(id: Str)                              // the data part is gone for good
    | Crash(kept: set<Pair>, partWritten: bool, torn: bool) // after which the log opens again

  function Init(): State
  {
    State({}, {}, false, {}, {}, {}, {}, false, false, [], {}, 0, [], {}, {}, {}, {})
  }

  function Union(xs: seq<set<Pair>>): set<Pair>
  {
    if xs == [] then {} else Union(xs[..|xs| - 1]) + xs[|xs| - 1]
  }

  function Members(bs: seq<Batch>): set<Batch> { set b | b in bs }

  function Kept(ps: set<Pair>, live: set<Str>): set<Pair> { set p | p in ps && p.id in live }

  /** What survives a crash whatever else is lost. */
  function Durable(s: State): set<Pair> { s.active + s.sealed + Union(s.l0) + s.l1 }

  /** What a lookup reads while no flush holds the lock. */
  function Visible(s: State): set<Pair> { s.mem + Union(s.l0) + s.l1 }

  /** What an earlier failure left unsynced becomes durable with the next lines that are synced. */
  function SyncedToo(s: State, lines: seq<Pair>): set<Pair> { if lines == [] then {} else s.limbo }

  predicate Enabled(s: State, a: Action)
  {
    match a
    case Enqueue(b) => true
    case SyncOk(n) => n <= |s.inflight|
    case SyncFail(n, k, tear) => n <= |s.inflight| && k <= |Lines(s.inflight[..n])| && (tear ==> k < |Lines(s.inflight[..n])|)
    case Mark(b, _) => b in s.synced && !s.flushing
    case FlushBegin => !s.flushing
    case FlushOk => s.flushing
    case FlushFail => s.flushing
    case Discard(_) => true
    case CompactBegin => !s.flushing
    case CompactEnd(_, _) => !s.flushing && 2 <= s.chosen <= |s.l0|
    case Retire(_) => true
    case Crash(kept, _, torn) =>
      && kept <= s.old_ + s.limbo + Landed(s.torn, Lines(s.inflight))
      && (torn ==> s.torn || s.dirty || s.inflight != [])
      && (s.torn && !s.dirty && s.inflight == [] ==> torn)
  }

  function Step(s: State, a: Action): State
    requires Enabled(s, a)
  {
    match a
    case Enqueue(b) =>
      // a Write without entries returns nil at once
      if b.tokens == [] then s.(synced := s.synced + {b})
      else s.(mem := s.mem + Pairs(b), inflight := s.inflight + [b])
    case SyncOk(n) =>
      var lines := Lines(s.inflight[..n]);
      s.(active := s.active + SyncedToo(s, lines) + Landed(s.torn, lines), limbo := s.limbo - SyncedToo(s, lines), inflight := s.inflight[n..], synced := s.synced + Members(s.inflight[..n]),
         torn := s.torn && lines == [], dirty := s.dirty && lines == [])
    case SyncFail(n, k, tear) =>
      var lines := Lines(s.inflight[..n])[..k];
      s.(limbo := s.limbo + Landed(s.torn, lines), inflight := s.inflight[n..],
         torn := tear || (s.torn && k == 0), dirty := s.dirty || tear || k > 0)
    case Mark(b, saved) =>
      var covered := s.covered + {b.id};
      s.(synced := s.synced - {b}, covered := covered, disk := if saved then covered else s.disk)
    case FlushBegin =>
      // sealing writes out and syncs what is pending, so those Writes return nil
      s.(mem := {}, snap := s.mem, flushing := true,
         sealed := s.sealed + s.active + SyncedToo(s, Lines(s.inflight)) + Landed(s.torn, Lines(s.inflight)), active := {},
         old_ := s.old_ + (s.limbo - SyncedToo(s, Lines(s.inflight))), limbo := {}, torn := false, dirty := false,
         inflight := [], synced := s.synced + Members(s.inflight))
    case FlushOk =>
      s.(snap := {}, flushing := false, l0 := s.l0 + [s.snap], old_ := s.old_ + s.sealed, sealed := {})
    case FlushFail => s.(mem := s.mem + s.snap, snap := {}, flushing := false)
    case Discard(kept) => s.(old_ := s.old_ * kept)
    case CompactBegin => s.(chosen := |s.l0|)
    case CompactEnd(live, saved) =>
      var covered := s.covered * live;
      s.(l0 := s.l0[s.chosen..], l1 := s.l1 + Kept(Union(s.l0[..s.chosen]), live), chosen := 0,
         covered := covered, disk := if saved then covered else s.disk)
    case Retire(id) => s.(dead := s.dead + {id})
    case Crash(kept, partWritten, torn) =>
      var wal := s.active + s.sealed + kept;
      s.(mem := wal, snap := {}, flushing := false, active := {}, sealed := wal, old_ := {}, limbo := {}, torn := torn, dirty := false,
         l0 := if s.flushing && partWritten then s.l0 + [s.snap] else s.l0, chosen := 0,
         inflight := [], synced := {}, covered := s.disk)
  }

  // ---------- the invariant ----------

  /** want(id): the label tokens of data part id. */
  type Wanted = Str -> set<Str>

  predicate Complete(id: Str, want: Wanted, ps: set<Pair>) { forall t :: t in want(id) ==> Pair(t, id) in ps }

  /** Everything the WAL holds on its own is also in memory. */
  ghost predicate WalInMemory(s: State)
  {
    && s.active + s.limbo + Elems(Lines(s.inflight)) <= s.mem
    && s.sealed <= (if s.flushing then s.snap else s.mem)
    && (!s.flushing ==> s.snap == {})
  }

  /** Written and not yet marked: what was written is durable. */
  ghost predicate SyncedDurable(s: State)
  {
    forall b :: b in s.synced && b.id !in s.dead ==> Pairs(b) <= Durable(s)
  }

  /** Covered, in memory or on disk: every label token is durable. */
  ghost predicate CoveredDurable(s: State, want: Wanted)
  {
    forall id :: id in s.covered + s.disk && id !in s.dead ==> Complete(id, want, Durable(s))
  }

  ghost predicate Inv(s: State, want: Wanted)
  {
    WalInMemory(s) && SyncedDurable(s) && CoveredDurable(s, want)
  }

  /** The promise: covered data parts are complete for every lookup. */
  ghost predicate Licensed(s: State, want: Wanted)
  {
    forall id :: id in s.covered && id !in s.dead ==> Complete(id, want, Visible(s))
  }

  lemma InvIsLicense(s: State, want: Wanted)
    requires Inv(s, want) && !s.flushing
    ensures Licensed(s, want)
  {
    assert Durable(s) <= Visible(s);
  }

  // ---------- steps that only add ----------

  lemma {:induction false} UnionAppend(xs: seq<set<Pair>>, ys: seq<set<Pair>>)
    ensures Union(xs + ys) == Union(xs) + Union(ys)
  {
    if ys == [] {
      assert xs + ys == xs;
    } else {
      var n := |ys| - 1;
      assert (xs + ys)[..|xs| + n] == xs + ys[..n];
      UnionAppend(xs, ys[..n]);
    }
  }

  lemma UnionOne(xs: seq<set<Pair>>, x: set<Pair>)
    ensures Union(xs + [x]) == Union(xs) + x
  {
    assert (xs + [x])[..|xs|] == xs;
  }

  lemma {:induction false} LinesAppend(a: seq<Batch>, b: seq<Batch>)
    ensures Lines(a + b) == Lines(a) + Lines(b)
  {
    hide BatchLines;
    if b == [] {
      assert a + b == a;
    } else {
      assert (a + b)[..|a + b| - 1] == a + b[..|b| - 1];
      LinesAppend(a, b[..|b| - 1]);
    }
  }

  /** A line comes from one of the batches. */
  lemma {:induction false} LinesHave(bs: seq<Batch>, p: Pair)
    ensures p in Lines(bs) <==> exists b :: b in bs && p in Pairs(b)
  {
    if bs != [] {
      var n := |bs| - 1;
      LinesHave(bs[..n], p);
      assert bs == bs[..n] + [bs[n]];
      assert p in BatchLines(bs[n]) <==> p in Pairs(bs[n]);
    }
  }

  lemma LinesOne(b: Batch)
    ensures Lines([b]) == BatchLines(b)
  {
    assert [b][..0] == [];
  }

  lemma LinesSplit(bs: seq<Batch>, n: nat)
    requires n <= |bs|
    ensures Lines(bs) == Lines(bs[..n]) + Lines(bs[n..])
    ensures Elems(Lines(bs[..n])) <= Elems(Lines(bs)) && Elems(Lines(bs[n..])) <= Elems(Lines(bs))
  {
    assert bs == bs[..n] + bs[n..];
    LinesAppend(bs[..n], bs[n..]);
  }

  /** Nothing durable is lost and nobody new is promised: the two durability invariants stay. */
  lemma MoreIsEnough(s: State, r: State, want: Wanted)
    requires SyncedDurable(s) && CoveredDurable(s, want)
    requires Durable(s) <= Durable(r) && r.synced <= s.synced && r.covered + r.disk <= s.covered + s.disk && s.dead <= r.dead
    ensures SyncedDurable(r) && CoveredDurable(r, want)
  {
    hide Durable;
    forall id | id in r.covered + r.disk && id !in r.dead ensures Complete(id, want, Durable(r)) {
      assert Complete(id, want, Durable(s));
    }
  }

  lemma EnqueueKeeps(s: State, b: Batch, want: Wanted)
    requires Inv(s, want)
    ensures Inv(Step(s, Enqueue(b)), want)
  {
    hide Durable, Lines;
    var r := Step(s, Enqueue(b));
    DurableSame(s, r);
    MoreIsEnough(s, r.(synced := s.synced), want);
    LinesAppend(s.inflight, [b]);
    LinesOne(b);
    assert b.tokens == [] ==> Pairs(b) == {};
  }

  lemma DurableSame(s: State, r: State)
    requires r.active == s.active && r.sealed == s.sealed && r.l0 == s.l0 && r.l1 == s.l1
    ensures Durable(r) == Durable(s)
  {}

  /** A sync loses no promised entry: there is no torn line in front, or the line behind it is not needed. */
  ghost predicate SyncOkay(s: State, lines: seq<Pair>)
  {
    s.torn && lines != [] ==> lines[0].id in s.dead || lines[0] in Durable(s) + s.limbo || lines[0] in lines[1..]
  }

  /** The batches of a group commit are all durable afterwards exactly when its first line was not lost. */
  lemma SyncedIff(s: State, r: State, bs: seq<Batch>, want: Wanted)
    requires SyncedDurable(s) && CoveredDurable(s, want)
    requires Durable(r) == Durable(s) + SyncedToo(s, Lines(bs)) + Landed(s.torn, Lines(bs)) && r.dead == s.dead
    requires r.synced == s.synced + Members(bs) && r.covered == s.covered && r.disk == s.disk
    ensures CoveredDurable(r, want) && (SyncedDurable(r) <==> SyncOkay(s, Lines(bs)))
  {
    hide Durable, Lines;
    var lines := Lines(bs);
    MoreIsEnough(s, r.(synced := s.synced), want) by { DurableSame(r, r.(synced := s.synced)); }
    DurableSame(r, r.(synced := s.synced));
    if SyncOkay(s, lines) {
      forall b | b in r.synced && b.id !in r.dead ensures Pairs(b) <= Durable(r) {
        if b in bs {
          forall p | p in Pairs(b) ensures p in Durable(r) {
            LinesHave(bs, p);
            var i :| 0 <= i < |lines| && lines[i] == p;
            assert i > 0 ==> p in lines[1..];
          }
        }
      }
    } else {
      LinesHave(bs, lines[0]);
      var b :| b in bs && lines[0] in Pairs(b);
      assert b in r.synced && b.id !in r.dead && lines[0] !in Durable(r);
    }
  }

  lemma SyncOkIff(s: State, n: nat, want: Wanted)
    requires Inv(s, want) && n <= |s.inflight|
    ensures Inv(Step(s, SyncOk(n)), want) <==> SyncOkay(s, Lines(s.inflight[..n]))
  {
    hide Lines;
    var r := Step(s, SyncOk(n));
    LinesSplit(s.inflight, n);
    assert Durable(r) == Durable(s) + SyncedToo(s, Lines(s.inflight[..n])) + Landed(s.torn, Lines(s.inflight[..n]));
    SyncedIff(s, r, s.inflight[..n], want);
  }

  lemma SyncFailKeeps(s: State, n: nat, k: nat, tear: bool, want: Wanted)
    requires Inv(s, want) && Enabled(s, SyncFail(n, k, tear))
    ensures Inv(Step(s, SyncFail(n, k, tear)), want)
  {
    hide Lines, Durable;
    var r := Step(s, SyncFail(n, k, tear));
    LinesSplit(s.inflight, n);
    DurableSame(s, r);
    MoreIsEnough(s, r, want);
  }

  lemma FlushBeginIff(s: State, want: Wanted)
    requires Inv(s, want) && !s.flushing
    ensures Inv(Step(s, FlushBegin), want) <==> SyncOkay(s, Lines(s.inflight))
  {
    var r := Step(s, FlushBegin);
    assert Lines([]) == [];
    hide Lines;
    assert Durable(r) == Durable(s) + SyncedToo(s, Lines(s.inflight)) + Landed(s.torn, Lines(s.inflight));
    SyncedIff(s, r, s.inflight, want);
  }

  lemma FlushOkKeeps(s: State, want: Wanted)
    requires Inv(s, want) && s.flushing
    ensures Inv(Step(s, FlushOk), want)
  {
    var r := Step(s, FlushOk);
    UnionOne(s.l0, s.snap);
    MoreIsEnough(s, r, want);
  }

  lemma FlushFailKeeps(s: State, want: Wanted)
    requires Inv(s, want) && s.flushing
    ensures Inv(Step(s, FlushFail), want)
  {
    var r := Step(s, FlushFail);
    DurableSame(s, r);
    MoreIsEnough(s, r, want);
  }

  lemma BookkeepingKeeps(s: State, a: Action, want: Wanted)
    requires Inv(s, want) && Enabled(s, a) && (a.Discard? || a.CompactBegin? || a.Retire?)
    ensures Inv(Step(s, a), want)
  {
    var r := Step(s, a);
    DurableSame(s, r);
    MoreIsEnough(s, r, want);
  }

  lemma CrashKeeps(s: State, kept: set<Pair>, partWritten: bool, torn: bool, want: Wanted)
    requires Inv(s, want) && Enabled(s, Crash(kept, partWritten, torn))
    ensures Inv(Step(s, Crash(kept, partWritten, torn)), want)
  {
    var r := Step(s, Crash(kept, partWritten, torn));
    assert Lines([]) == [];
    UnionOne(s.l0, s.snap);
    MoreIsEnough(s, r, want);
  }

  // ---------- the two steps that can break it ----------

  /** MarkCovered is justified when the data part is gone, or what this Write left out of its label tokens was durable already. */
  ghost predicate MarkOk(s: State, b: Batch, want: Wanted)
  {
    b.id in s.dead || forall t :: t in want(b.id) && t !in b.tokens ==> Pair(t, b.id) in Durable(s)
  }

  lemma MarkKeepsIff(s: State, b: Batch, saved: bool, want: Wanted)
    requires Inv(s, want) && Enabled(s, Mark(b, saved))
    ensures Inv(Step(s, Mark(b, saved)), want) <==> MarkOk(s, b, want)
  {
    hide Durable;
    var r := Step(s, Mark(b, saved));
    DurableSame(s, r);
    if b.id !in s.dead {
      assert Pairs(b) <= Durable(s);
      forall t | t in b.tokens ensures Pair(t, b.id) in Durable(s) { TokenPair(b, t); }
    }
  }

  lemma TokenPair(b: Batch, t: Str)
    ensures Pair(t, b.id) in Pairs(b) <==> t in b.tokens
  {
    if t in b.tokens {
      var i :| 0 <= i < |b.tokens| && b.tokens[i] == t;
      assert BatchLines(b)[i] == Pair(t, b.id);
    }
  }

  /** What stays durable without the parts chosen for compaction. */
  function Rest(s: State): set<Pair>
    requires s.chosen <= |s.l0|
  {
    s.active + s.sealed + Union(s.l0[s.chosen..]) + s.l1
  }

  /** Existing data parts outside the live set: those between write and mark, and those a stale covered file still names. */
  ghost predicate CompactOk(s: State, live: set<Str>, saved: bool, want: Wanted)
    requires s.chosen <= |s.l0|
  {
    && (forall b :: b in s.synced && b.id !in s.dead && b.id !in live ==> Pairs(b) <= Rest(s))
    && (!saved ==> forall id :: id in s.disk && id !in s.dead && id !in live ==> Complete(id, want, Rest(s)))
  }

  lemma CompactDurable(s: State, live: set<Str>, saved: bool)
    requires Enabled(s, CompactEnd(live, saved))
    ensures forall p :: p in Durable(Step(s, CompactEnd(live, saved))) <==> p in Rest(s) || (p.id in live && p in Durable(s))
  {
    assert s.l0 == s.l0[..s.chosen] + s.l0[s.chosen..];
    UnionAppend(s.l0[..s.chosen], s.l0[s.chosen..]);
  }

  lemma CompactBatch(s: State, live: set<Str>, saved: bool, b: Batch)
    requires Enabled(s, CompactEnd(live, saved)) && Pairs(b) <= Durable(s)
    ensures Pairs(b) <= Durable(Step(s, CompactEnd(live, saved))) <==> b.id in live || Pairs(b) <= Rest(s)
  {
    hide Durable, Rest;
    CompactDurable(s, live, saved);
  }

  lemma CompactId(s: State, live: set<Str>, saved: bool, id: Str, want: Wanted)
    requires Enabled(s, CompactEnd(live, saved)) && Complete(id, want, Durable(s))
    ensures Complete(id, want, Durable(Step(s, CompactEnd(live, saved)))) <==> id in live || Complete(id, want, Rest(s))
  {
    hide Durable, Rest;
    CompactDurable(s, live, saved);
    var r := Step(s, CompactEnd(live, saved));
    assert forall t :: t in want(id) ==> (Pair(t, id) in Durable(r) <==> id in live || Pair(t, id) in Rest(s));
  }

  lemma CompactKeepsIff(s: State, live: set<Str>, saved: bool, want: Wanted)
    requires Inv(s, want) && Enabled(s, CompactEnd(live, saved))
    ensures Inv(Step(s, CompactEnd(live, saved)), want) <==> CompactOk(s, live, saved, want)
  {
    hide Durable, Rest, Complete, Pairs, Kept;
    var r := Step(s, CompactEnd(live, saved));
    forall b | b in s.synced && b.id !in s.dead
      ensures Pairs(b) <= Durable(r) <==> b.id in live || Pairs(b) <= Rest(s)
    {
      CompactBatch(s, live, saved, b);
    }
    forall id | id in s.covered + s.disk && id !in s.dead
      ensures Complete(id, want, Durable(r)) <==> id in live || Complete(id, want, Rest(s))
    {
      CompactId(s, live, saved, id, want);
    }
  }

  // ---------- runs ----------

  ghost predicate Ok(s: State, a: Action, want: Wanted)
    requires Enabled(s, a)
  {
    match a
    case SyncOk(n) => SyncOkay(s, Lines(s.inflight[..n]))
    case FlushBegin => SyncOkay(s, Lines(s.inflight))
    case Mark(b, _) => MarkOk(s, b, want)
    case CompactEnd(live, saved) => CompactOk(s, live, saved, want)
    case _ => true
  }

  lemma StepKeepsIff(s: State, a: Action, want: Wanted)
    requires Inv(s, want) && Enabled(s, a)
    ensures Inv(Step(s, a), want) <==> Ok(s, a, want)
  {
    hide Inv, Durable, MarkOk, CompactOk, SyncOkay, Lines;
    match a
    case Enqueue(b) => EnqueueKeeps(s, b, want);
    case SyncOk(n) => SyncOkIff(s, n, want);
    case SyncFail(n, k, tear) => SyncFailKeeps(s, n, k, tear, want);
    case Mark(b, saved) => MarkKeepsIff(s, b, saved, want);
    case FlushBegin => FlushBeginIff(s, want);
    case FlushOk => FlushOkKeeps(s, want);
    case FlushFail => FlushFailKeeps(s, want);
    case CompactEnd(live, saved) => CompactKeepsIff(s, live, saved, want);
    case Crash(kept, partWritten, torn) => CrashKeeps(s, kept, partWritten, torn, want);
    case _ => BookkeepingKeeps(s, a, want);
  }

  /** The state after a run; an action that cannot happen is skipped. */
  function After(acts: seq<Action>): State
  {
    if acts == [] then Init()
    else
      var s := After(acts[..|acts| - 1]);
      if Enabled(s, acts[|acts| - 1]) then Step(s, acts[|acts| - 1]) else s
  }

  ghost predicate InvThroughout(acts: seq<Action>, want: Wanted)
  {
    Inv(After(acts), want) && (acts != [] ==> InvThroughout(acts[..|acts| - 1], want))
  }

  ghost predicate OkThroughout(acts: seq<Action>, want: Wanted)
  {
    acts != [] ==>
      && OkThroughout(acts[..|acts| - 1], want)
      && var s := After(acts[..|acts| - 1]); Enabled(s, acts[|acts| - 1]) ==> Ok(s, acts[|acts| - 1], want)
  }

  /** Over every run the invariant holds throughout exactly when no sync loses a line and every mark and compaction is justified. */
  lemma {:induction false} CoveredThroughoutIff(acts: seq<Action>, want: Wanted)
    ensures InvThroughout(acts, want) <==> OkThroughout(acts, want)
  {
    hide Inv, Ok, Step, Enabled;
    if acts == [] {
      InitInv(want);
    } else {
      var s, a := After(acts[..|acts| - 1]), acts[|acts| - 1];
      CoveredThroughoutIff(acts[..|acts| - 1], want);
      if InvThroughout(acts[..|acts| - 1], want) && Enabled(s, a) { StepKeepsIff(s, a, want); }
    }
  }

  lemma InitInv(want: Wanted)
    ensures Inv(Init(), want)
  {}

  /** What a caller can see to: no sync behind a torn line, marks follow a write of all label tokens, live sets name every part in between. */
  ghost predicate Careful(s: State, a: Action, want: Wanted)
  {
    match a
    case SyncOk(n) => !s.torn
    case FlushBegin => !s.torn
    case Mark(b, _) => want(b.id) <= Toks(b)
    case CompactEnd(live, saved) =>
      && (forall b :: b in s.synced && b.id !in s.dead ==> b.id in live)
      && (!saved ==> forall id :: id in s.disk && id !in s.dead ==> id in live)
    case _ => true
  }

  ghost predicate CarefulThroughout(acts: seq<Action>, want: Wanted)
  {
    acts != [] ==>
      CarefulThroughout(acts[..|acts| - 1], want) && Careful(After(acts[..|acts| - 1]), acts[|acts| - 1], want)
  }

  lemma CarefulIsOk(s: State, a: Action, want: Wanted)
    requires Enabled(s, a) && Careful(s, a, want)
    ensures Ok(s, a, want)
  {
    hide Durable, Lines;
  }

  lemma {:induction false} CarefulRun(acts: seq<Action>, want: Wanted)
    requires CarefulThroughout(acts, want)
    ensures Inv(After(acts), want)
  {
    hide Inv, Ok, Step, Enabled, Careful;
    if acts == [] {
      InitInv(want);
    } else {
      var s, a := After(acts[..|acts| - 1]), acts[|acts| - 1];
      CarefulRun(acts[..|acts| - 1], want);
      if Enabled(s, a) {
        CarefulIsOk(s, a, want);
        StepKeepsIff(s, a, want);
      }
    }
  }

  /** Covered, existing data parts have all their label tokens in the memtable or the index parts whenever the lock is free. */
  lemma CoveredIsComplete(acts: seq<Action>, want: Wanted)
    requires CarefulThroughout(acts, want) && !After(acts).flushing
    ensures Licensed(After(acts), want)
  {
    CarefulRun(acts, want);
    InvIsLicense(After(acts), want);
  }

  // ---------- what was written ----------

  /** Every pair of every Write of a run. */
  function Wrote(acts: seq<Action>): set<Pair>
  {
    if acts == [] then {}
    else Wrote(acts[..|acts| - 1]) + if acts[|acts| - 1].Enqueue? then Pairs(acts[|acts| - 1].b) else {}
  }

  /** Every pair the engine has anywhere. */
  function Stored(s: State): set<Pair>
  {
    s.mem + s.snap + s.active + s.sealed + s.old_ + s.limbo + Union(s.l0) + s.l1 + Elems(Lines(s.inflight))
  }

  lemma WriteStores(s: State, a: Action)
    requires Enabled(s, a) && (a.Enqueue? || a.SyncOk? || a.SyncFail?)
    ensures Stored(Step(s, a)) <= Stored(s) + if a.Enqueue? then Pairs(a.b) else {}
  {
    hide Lines, Union;
    match a
    case Enqueue(b) =>
      LinesAppend(s.inflight, [b]);
      LinesOne(b);
    case SyncOk(n) => LinesSplit(s.inflight, n);
    case SyncFail(n, k, tear) => LinesSplit(s.inflight, n);
  }

  lemma MoveStores(s: State, a: Action)
    requires Enabled(s, a) && (a.FlushBegin? || a.FlushOk? || a.FlushFail? || a.Crash?)
    ensures Stored(Step(s, a)) <= Stored(s)
  {
    assert Lines([]) == [];
    hide Lines, Union;
    UnionOne(s.l0, s.snap);
  }

  lemma CompactStores(s: State, a: Action)
    requires Enabled(s, a) && a.CompactEnd?
    ensures Stored(Step(s, a)) <= Stored(s)
  {
    hide Lines, Union;
    assert s.l0 == s.l0[..s.chosen] + s.l0[s.chosen..];
    UnionAppend(s.l0[..s.chosen], s.l0[s.chosen..]);
  }

  lemma StepStores(s: State, a: Action)
    requires Enabled(s, a)
    ensures Stored(Step(s, a)) <= Stored(s) + if a.Enqueue? then Pairs(a.b) else {}
  {
    hide Lines, Union, Pairs, Landed;
    if a.Enqueue? || a.SyncOk? || a.SyncFail? {
      WriteStores(s, a);
    } else if a.FlushBegin? || a.FlushOk? || a.FlushFail? || a.Crash? {
      MoveStores(s, a);
    } else if a.CompactEnd? {
      CompactStores(s, a);
    }
  }

  /** Over every run, nothing is stored that was not written. */
  lemma {:induction false} OnlyWritten(acts: seq<Action>)
    ensures Stored(After(acts)) <= Wrote(acts)
  {
    hide Stored, Step, Enabled;
    if acts == [] {
      NothingStored();
    } else {
      var s, a := After(acts[..|acts| - 1]), acts[|acts| - 1];
      OnlyWritten(acts[..|acts| - 1]);
      if Enabled(s, a) { StepStores(s, a); }
    }
  }

  lemma NothingStored()
    ensures Stored(Init()) == {}
  {}

  /** The tokens that the Writes of a run carried for a data part. */
  function WrittenFor(acts: seq<Action>, id: Str): set<Str> { set p | p in Wrote(acts) && p.id == id :: p.token }

  /** A justified mark needs every label token to have been written for the part. */
  lemma MarkNeedsWritten(acts: seq<Action>, b: Batch, want: Wanted)
    requires MarkOk(After(acts), b, want) && b.id !in After(acts).dead && Toks(b) <= WrittenFor(acts, b.id)
    ensures want(b.id) <= WrittenFor(acts, b.id)
  {
    hide Lines;
    OnlyWritten(acts);
    var s := After(acts);
    forall t | t in want(b.id) ensures t in WrittenFor(acts, b.id) {
      if t !in b.tokens { assert Pair(t, b.id) in Stored(s) && Pair(t, b.id).token == t; }
    }
  }

  /** If no other Write carried more for the part, the mark is justified exactly when this Write carried all its label tokens. */
  lemma MarkOkIffWritten(acts: seq<Action>, b: Batch, want: Wanted)
    requires b.id !in After(acts).dead && WrittenFor(acts, b.id) == Toks(b)
    ensures MarkOk(After(acts), b, want) <==> want(b.id) <= Toks(b)
  {
    if MarkOk(After(acts), b, want) { MarkNeedsWritten(acts, b, want); }
  }

  // ---------- the data compaction path ----------

  /** Label tokens carry a prefix with a colon; text tokens are made of word characters only. */
  predicate IsLabel(t: Str) { Bloom.PREFIX <= t }

  /** A stored text token: its characters are word characters. */
  predicate IsText(u: Tokens.Charset, t: Str) { Tokens.AllWord(u, u.decode(t)) }

  /** Decoding leaves the ASCII bytes of a string as they are. */
  ghost predicate KeepsAscii(u: Tokens.Charset)
  {
    forall t: Str, i :: 0 <= i < |t| && t[i] < 128 ==> t[i] in u.decode(t)
  }

  lemma LabelIsNotText(u: Tokens.Charset, t: Str)
    requires !u.isWord(58) && KeepsAscii(u) && IsLabel(t)
    ensures !IsText(u, t)
  {
    assert t[3] == Bloom.PREFIX[3] == 58;
  }

  /**
   Data compaction writes the text tokens of the new part and marks it covered. In every
   run in which a part got text tokens only, its mark is justified exactly when the part
   has no labels.
   */
  lemma TextOnlyMark(acts: seq<Action>, b: Batch, want: Wanted, u: Tokens.Charset)
    requires !u.isWord(58) && KeepsAscii(u) && b.id !in After(acts).dead
    requires forall t :: t in WrittenFor(acts, b.id) + Toks(b) ==> IsText(u, t)
    requires forall t :: t in want(b.id) ==> IsLabel(t)
    ensures MarkOk(After(acts), b, want) <==> want(b.id) == {}
  {
    hide Lines;
    OnlyWritten(acts);
    var s := After(acts);
    forall t | t in want(b.id) ensures t !in b.tokens && Pair(t, b.id) !in Durable(s) {
      LabelIsNotText(u, t);
      assert t !in Toks(b);
      assert Pair(t, b.id) in Stored(s) ==> Pair(t, b.id).token in WrittenFor(acts, b.id);
    }
  }

  lemma AfterNext(acts: seq<Action>, a: Action)
    requires Enabled(After(acts), a)
    ensures After(acts + [a]) == Step(After(acts), a)
  {
    assert (acts + [a])[..|acts|] == acts;
  }

  function WriteAndFlush(b: Batch): seq<Action> { [Enqueue(b), FlushBegin, FlushOk] }

  lemma WriteAndFlushState(acts: seq<Action>, b: Batch)
    requires After(acts).mem == {} && !After(acts).flushing && b.tokens != []
    ensures var s, r := After(acts), After(acts + WriteAndFlush(b));
      r.mem == {} && !r.flushing && r.l0 == s.l0 + [Pairs(b)] && r.l1 == s.l1 && r.dead == s.dead
      && r.synced >= s.synced + {b}
  {
    hide After, Pairs;
    AfterNext(acts, Enqueue(b));
    AfterNext(acts + [Enqueue(b)], FlushBegin);
    AfterNext(acts + [Enqueue(b)] + [FlushBegin], FlushOk);
    assert acts + [Enqueue(b)] + [FlushBegin] + [FlushOk] == acts + WriteAndFlush(b);
    assert {} + Pairs(b) == Pairs(b);
  }

  /** Write and flush (t, x), write and flush (u, y), compact with y alone live. */
  function TwoFlushesAndCompact(t: Str, x: Str, u: Str, y: Str): seq<Action>
  {
    WriteAndFlush(Batch(x, [t])) + WriteAndFlush(Batch(y, [u])) + [CompactBegin] + [CompactEnd({y}, true)]
  }

  lemma TwoFlushesAndCompactState(t: Str, x: Str, u: Str, y: Str)
    requires x != y
    ensures var s := After(TwoFlushesAndCompact(t, x, u, y));
      s.mem == {} && !s.flushing && s.l0 == [] && s.l1 == {Pair(u, y)} && Batch(x, [t]) in s.synced && s.dead == {}
  {
    hide After, Union, WriteAndFlush;
    var b, c := Batch(x, [t]), Batch(y, [u]);
    AfterNone();
    WriteAndFlushState([], b);
    assert [] + WriteAndFlush(b) == WriteAndFlush(b);
    WriteAndFlushState(WriteAndFlush(b), c);
    var acts := WriteAndFlush(b) + WriteAndFlush(c);
    var s := After(acts);
    assert s.l0 == [Pairs(b), Pairs(c)];
    AfterNext(acts, CompactBegin);
    AfterNext(acts + [CompactBegin], CompactEnd({y}, true));
    assert s.l0[..2] == s.l0;
    UnionTwo(Pairs(b), Pairs(c));
    OneToken(x, t);
    OneToken(y, u);
    assert Kept(Pairs(b) + Pairs(c), {y}) == {Pair(u, y)};
  }

  lemma OneToken(x: Str, t: Str)
    ensures BatchLines(Batch(x, [t])) == [Pair(t, x)] && Pairs(Batch(x, [t])) == {Pair(t, x)}
    ensures Lines([Batch(x, [t])]) == [Pair(t, x)]
  {
    LinesOne(Batch(x, [t]));
  }

  lemma AfterNone()
    ensures After([]) == Init()
  {}

  lemma UnionTwo(a: set<Pair>, b: set<Pair>)
    ensures Union([a, b]) == a + b
  {
    UnionOne([], a);
    UnionOne([a], b);
    assert [] + [a] == [a] && [a] + [b] == [a, b];
  }

  /** A compaction with an older list of data parts, between the write and the mark of x, leaves x covered without its token. */
  lemma MarkAfterStaleCompaction(t: Str, x: Str, u: Str, y: Str, want: Wanted)
    requires x != y && t in want(x)
    ensures !Licensed(After(TwoFlushesAndCompact(t, x, u, y) + [Mark(Batch(x, [t]), true)]), want)
  {
    hide TwoFlushesAndCompact, After;
    var acts := TwoFlushesAndCompact(t, x, u, y);
    TwoFlushesAndCompactState(t, x, u, y);
    AfterNext(acts, Mark(Batch(x, [t]), true));
    var s := After(acts + [Mark(Batch(x, [t]), true)]);
    assert x in s.covered && Union([]) == {} && Pair(t, x) !in Visible(s);
  }

  /** A run: the text batch of a compacted part is written, synced and marked. */
  function WriteAndMark(b: Batch): seq<Action> { [Enqueue(b), SyncOk(1), Mark(b, true)] }

  lemma WriteAndMarkState(acts: seq<Action>, b: Batch)
    requires After(acts).inflight == [] && !After(acts).flushing && b.tokens != []
    ensures var s, r := After(acts), After(acts + WriteAndMark(b));
      && r.mem == s.mem + Pairs(b) && r.active == s.active + s.limbo + Landed(s.torn, BatchLines(b)) && r.inflight == [] && !r.flushing
      && !r.torn && !r.dirty && r.disk == s.covered + {b.id} == r.covered
      && r.sealed == s.sealed && r.l0 == s.l0 && r.l1 == s.l1 && r.dead == s.dead
  {
    hide After, Pairs, Landed, Lines;
    AfterNext(acts, Enqueue(b));
    var s1 := After(acts + [Enqueue(b)]);
    assert s1.inflight == [b] && s1.inflight[..1] == [b] && s1.inflight[1..] == [];
    LinesOne(b);
    AfterNext(acts + [Enqueue(b)], SyncOk(1));
    AfterNext(acts + [Enqueue(b)] + [SyncOk(1)], Mark(b, true));
    assert acts + [Enqueue(b)] + [SyncOk(1)] + [Mark(b, true)] == acts + WriteAndMark(b);
  }

  /** After data compaction a part with labels is covered without them. */
  lemma TextOnlyUnlicensed(b: Batch, want: Wanted, u: Tokens.Charset)
    requires !u.isWord(58) && KeepsAscii(u) && b.tokens != [] && (forall t :: t in b.tokens ==> IsText(u, t))
    requires want(b.id) != {} && forall t :: t in want(b.id) ==> IsLabel(t)
    ensures !Licensed(After(WriteAndMark(b)), want)
  {
    hide After, WriteAndMark, Landed, Pairs, KeepsAscii;
    AfterNone();
    WriteAndMarkState([], b);
    assert [] + WriteAndMark(b) == WriteAndMark(b);
    var t :| t in want(b.id);
    LabelIsNotText(u, t);
    TokenPair(b, t);
    assert Union([]) == {};
    assert b.id in After(WriteAndMark(b)).covered && Pair(t, b.id) !in Visible(After(WriteAndMark(b)));
  }

  /** A write of y tears, the write of x behind it is acknowledged and marked, the process crashes. */
  function TornThenCrash(t: Str, x: Str, u: Str, y: Str): seq<Action>
  {
    [Enqueue(Batch(y, [u]))] + [SyncFail(1, 0, true)] + WriteAndMark(Batch(x, [t])) + [Crash({}, false, false)]
  }

  /** The glued line is gone while the covered file still names x. */
  lemma TornLineUnlicensed(t: Str, x: Str, u: Str, y: Str, want: Wanted)
    requires t in want(x)
    ensures !Licensed(After(TornThenCrash(t, x, u, y)), want)
  {
    hide After, WriteAndMark, Lines, BatchLines;
    var b, c := Batch(x, [t]), Batch(y, [u]);
    AfterNone();
    AfterNext([], Enqueue(c));
    var a1 := [Enqueue(c)];
    assert [] + a1 == a1;
    OneToken(y, u);
    OneToken(x, t);
    var s1 := After(a1);
    assert s1.inflight == [c] && s1.inflight[..1] == [c] && s1.inflight[1..] == [];
    AfterNext(a1, SyncFail(1, 0, true));
    var a2 := a1 + [SyncFail(1, 0, true)];
    WriteAndMarkState(a2, b);
    var a3 := a2 + WriteAndMark(b);
    assert Landed(true, [Pair(t, x)]) == {};
    AfterNext(a3, Crash({}, false, false));
    assert Union([]) == {};
    assert x in After(a3 + [Crash({}, false, false)]).covered;
  }
}
