/** Runs of the store that lose what a reader would expect of it, each for any key and values. */
module StoreWitnesses {
  import opened Wrappers
  import opened Sequences
  import opened ByteStrings
  import opened Revisions
  import opened Mutations
  import opened StoredRecord
  import opened OrderedScan
  import opened Histories
  import opened Indexes
  import opened Stores
  import opened StoreInvariant
  import opened StoreCompaction
  import opened StoreReopen
  import opened StoreLeftovers
  import opened StoreRestarts
  import opened StoreRuns

  function Writes(m: Mutation): StoreOp {
    ApplyBatch([m], 0, true)
  }

  /** The run that makes each mutation a batch of its own. */
  function WriteEach(ms: seq<Mutation>): seq<StoreOp> {
    seq(|ms|, i requires 0 <= i < |ms| => Writes(ms[i]))
  }

  /** One more operation of a run, when it is accepted. */
  lemma Step(ops: seq<StoreOp>, op: StoreOp)
    requires AllStorable(ops) && Accepts(RunStore(ops), op) && (op.ApplyBatch? ==> Storable(op.batch))
    ensures AllStorable(ops + [op]) && RunStore(ops + [op]) == Performed(RunStore(ops), op)
    ensures LogAfter(ops + [op]) == LogNext(RunStore(ops), LogAfter(ops), op)
    ensures WholeLog(ops + [op]) ==
            WholeLog(ops) + if op.ApplyBatch? then EventsAfter(RunStore(ops).current, op.batch) else []
    ensures Sought(ops + [op]) == SoughtNext(Sought(ops), op)
    ensures HighWater(ops + [op]) == if Compacts(op) && op.at > HighWater(ops) then op.at else HighWater(ops)
    ensures Tidy(ops + [op]) <==> op.Restart? || (Tidy(ops) && !op.CompactFails?)
  {
    hide Accepts, Performed, LogNext, SoughtNext, EventsAfter, Storable;
    assert Front(ops + [op]) == ops && Last(ops + [op]) == op;
  }

  /** A run that only wrote the mutations given, and so knows them all. */
  ghost predicate Fresh(ops: seq<StoreOp>, ms: seq<Mutation>) {
    && AllStorable(ops) && Tidy(ops) && Sought(ops) == 0 && HighWater(ops) == 0
    && RunStore(ops).current == Revision(|ms|, 0) && RunStore(ops).compacted == 0
    && LogAfter(ops) == WholeLog(ops) == EventsAfter(ZERO, ms)
  }

  lemma Wrote(ops: seq<StoreOp>, ms: seq<Mutation>, m: Mutation)
    requires Fresh(ops, ms) && |m.key| < U32_END && |ms| < I64_MAX
    ensures Fresh(ops + [Writes(m)], ms + [m])
  {
    hide RunStore, LogAfter, WholeLog, Sought, HighWater, Tidy;
    Step(ops, Writes(m));
    assert EventsAfter(ZERO, ms + [m]) == EventsAfter(ZERO, ms) + EventsAfter(Revision(|ms|, 0), [m]);
  }

  lemma NothingWritten()
    ensures Fresh([], [])
  {
  }

  /** After mutations one by one, from the start. */
  lemma {:induction false} WroteEach(ms: seq<Mutation>)
    requires |ms| <= I64_MAX && forall i :: 0 <= i < |ms| ==> |ms[i].key| < U32_END
    ensures Fresh(WriteEach(ms), ms)
  {
    hide Fresh;
    if ms == [] {
      NothingWritten();
    } else {
      WroteEach(Front(ms));
      Wrote(WriteEach(Front(ms)), Front(ms), Last(ms));
      assert WriteEach(ms) == WriteEach(Front(ms)) + [Writes(Last(ms))] && ms == Front(ms) + [Last(ms)];
    }
  }

  /** Compaction is accepted, and may stop at once. */
  lemma MayCompact(s: Store, log: seq<Event>, w: nat, c: nat)
    requires Tracks(s, log, w) && w <= c <= s.current.main
    ensures Accepts(s, CompactAt(c)) && Accepts(s, CompactFails(c, 0))
  {
    DroppedAllValid(log, w, c);
  }

  lemma {:induction false} FindsNone(idx: IndexMap, keys: seq<bytes>, at: nat)
    requires forall key :: At(Lookup(idx, key), at) == None
    ensures FindEach(idx, keys, at) == []
  {
    if keys != [] {
      FindsNone(idx, Front(keys), at);
    }
  }

  /** A read that finds none of the keys answers with no rows. */
  lemma NothingFound(s: Store, range: Range, at: nat)
    requires Resolve(s, Some(at)) == Ok(at) && forall key :: At(Lookup(s.index, key), at) == None
    ensures RangeOf(s, range, Some(at), None) == Ok([])
  {
    FindsNone(s.index, IndexKeysIn(s.index, range), at);
  }

  /** Mutations one by one, then a compaction, then a restart. */
  lemma CompactedRun(ms: seq<Mutation>, c: nat)
    requires c <= |ms| <= I64_MAX && forall i :: 0 <= i < |ms| ==> |ms[i].key| < U32_END
    ensures var ops, log := WriteEach(ms) + [CompactAt(c)], EventsAfter(ZERO, ms);
            var s := RunStore(ops);
            && AllStorable(ops + [Restart]) && Careful(ops + [Restart])
            && Represents(s, log) && s.current == Revision(|ms|, 0) && s.compacted == c
            && RunStore(ops + [Restart]) == Reopened(s, log) && WholeLog(ops + [Restart]) == log
  {
    hide Represents, RunStore, LogAfter, WholeLog, EventsAfter, WriteEach, Tidy, Careful, Accepts, Sought, HighWater,
      OpenOf;
    var ops, log := WriteEach(ms), EventsAfter(ZERO, ms);
    WroteEach(ms);
    CompactedOnce(ops, ms, c);
    ops := ops + [CompactAt(c)];
    ReopenSucceeds(RunStore(ops), log);
    Step(ops, Restart) by { RunTracks(ops); AcceptsRestart(RunStore(ops), log, Sought(ops)); }
    EachWrites(ms);
    UnfailedIsCareful(ops + [Restart]);
  }

  lemma CompactedOnce(ops: seq<StoreOp>, ms: seq<Mutation>, c: nat)
    requires Fresh(ops, ms) && c <= |ms|
    ensures var next, log := ops + [CompactAt(c)], EventsAfter(ZERO, ms);
            && AllStorable(next) && LogAfter(next) == WholeLog(next) == log
            && Represents(RunStore(next), log) && RunStore(next).compacted == c
            && RunStore(next).current == Revision(|ms|, 0)
  {
    hide Represents, Tracks, RunStore, LogAfter, WholeLog, Tidy, Accepts, Sought, HighWater, EventsAfter, DroppedAt;
    RunTracks(ops);
    MayCompact(RunStore(ops), EventsAfter(ZERO, ms), 0, c);
    Step(ops, CompactAt(c));
    RunRepresents(ops + [CompactAt(c)]);
  }

  lemma EachWrites(ms: seq<Mutation>)
    ensures |WriteEach(ms)| == |ms| && forall i :: 0 <= i < |ms| ==> WriteEach(ms)[i].ApplyBatch?
  {
  }

  // ---- A deletion compacted away -----------------------------------------------------------------

  /** A key is open right after a put of it, at that put, and not after a deletion. */
  lemma OpenAtPut(log: seq<Event>, e: Event)
    ensures EndsAt(log + [e], e.m.key, e.m.Put?, |log|)
    ensures AbsentDelete(log + [e], |log|) <==> e.m.Delete? && !Open(HistoryOf(log, e.m.key))
  {
    hide Record, Open, FinalRev;
    Snoc(log, e);
    assert (log + [e])[..|log|] == log;
    RecordOpens(HistoryOf(log, e.m.key), e.m, e.rev);
  }

  lemma DeleteCloses(k: bytes, v: bytes)
    ensures var log := EventsAfter(ZERO, [Put(k, v), Delete(k)]);
            EndsAt(log, k, false, 1) && !AbsentDelete(log, 1)
  {
    var log := EventsAfter(ZERO, [Put(k, v), Delete(k)]);
    OpenAtPut([], log[0]);
    OpenAtPut([log[0]], log[1]);
    assert [] + [log[0]] == [log[0]] && log == [log[0]] + [log[1]];
  }

  lemma NeitherSurvives(k: bytes, v: bytes)
    requires |k| < U32_END
    ensures Survivors(EventsAfter(ZERO, [Put(k, v), Delete(k)]), 2) == []
  {
    hide Survives, AbsentDelete, EndsAt;
    var log := EventsAfter(ZERO, [Put(k, v), Delete(k)]);
    DeleteCloses(k, v);
    SettledSurvival(log, k, 2, false, 1, 0);
    SettledSurvival(log, k, 2, false, 1, 1);
    NoneSelected(log, SurvivorSet(log, 2), 2);
  }

  lemma {:induction false} NoneSelected(log: seq<Event>, keep: set<nat>, n: nat)
    requires n <= |log| && keep == {}
    ensures Select(log, keep, n) == []
  {
    if n > 0 {
      NoneSelected(log, keep, n - 1);
    }
  }

  /** Put, delete, compact there, restart: the store is back at revision zero. */
  lemma RestartLosesRevision(k: bytes, v: bytes)
    requires |k| < U32_END
    ensures var ops := WriteEach([Put(k, v), Delete(k)]) + [CompactAt(2)];
            && AllStorable(ops + [Restart]) && Careful(ops + [Restart])
            && RunStore(ops).current == Revision(2, 0) && RunStore(ops + [Restart]).current == ZERO
  {
    hide Represents, RunStore, WholeLog, WriteEach, Careful, AllStorable;
    NeitherSurvives(k, v);
    CompactedRun([Put(k, v), Delete(k)], 2);
  }

  // ---- A past that is admitted and not found --------------------------------------------------------

  lemma PutTwice(k: bytes, v1: bytes, v2: bytes, key: bytes) returns (log: seq<Event>)
    ensures log == EventsAfter(ZERO, [Put(k, v1), Put(k, v2)])
    ensures Replay(log, key, 1) == if key == k then Some(Version(v1, Revision(1, 0), Revision(1, 0), 1)) else None
    ensures Replay(log, key, 2) == if key == k then Some(Version(v2, Revision(1, 0), Revision(2, 0), 2)) else None
  {
    log := EventsAfter(ZERO, [Put(k, v1), Put(k, v2)]);
    assert Front(log) == [log[0]] && Front([log[0]]) == [];
    assert Last([log[0]]) == log[0] && Replay([], key, 1) == None && Replay([], key, 2) == None;
    ghost var first := if key == k then Some(Version(v1, Revision(1, 0), Revision(1, 0), 1)) else None;
    assert Replay([log[0]], key, 1) == first;
    assert Replay([log[0]], key, 2) == first;
    assert Last(log) == log[1];
  }

  /** Put twice, a compaction that fails at once: a read at the first put finds nothing. */
  lemma FailedCompactionHides(k: bytes, v1: bytes, v2: bytes, range: Range)
    requires |k| < U32_END
    ensures var ops := WriteEach([Put(k, v1), Put(k, v2)]) + [CompactFails(2, 0)];
            && AllStorable(ops) && RangeOf(RunStore(ops), range, Some(1), None) == Ok([])
            && Replay(WholeLog(ops), k, 1).Some?
  {
    hide Represents, Tracks, RunStore, LogAfter, WholeLog, RangeOf, CompactedPartly, Replay, WriteEach, DroppedAt;
    var ms := [Put(k, v1), Put(k, v2)];
    var ops := WriteEach(ms);
    var log := PutTwice(k, v1, v2, k);
    WroteEach(ms);
    RunRepresents(ops);
    RunTracks(ops);
    MayCompact(RunStore(ops), log, 0, 2);
    Step(ops, CompactFails(2, 0));
    NothingAdded(log);
    HiddenOnceFailed(RunStore(ops), k, v1, v2, range);
  }

  lemma HiddenOnceFailed(s: Store, k: bytes, v1: bytes, v2: bytes, range: Range)
    requires Represents(s, EventsAfter(ZERO, [Put(k, v1), Put(k, v2)])) && s.compacted == 0
    ensures RangeOf(CompactedPartly(s, 2, 0), range, Some(1), None) == Ok([])
  {
    hide Represents, RangeOf, CompactedPartly, Replay;
    var log, after := EventsAfter(ZERO, [Put(k, v1), Put(k, v2)]), CompactedPartly(s, 2, 0);
    assert CompactRefusal(s, 2) == None by { assert s.current == LastRevision(log) by { StandsAt(s, log); } }
    forall key ensures At(Lookup(after.index, key), 1) == None && Resolve(after, Some(1)) == Ok(1) {
      PartialCompactionMisreads(s, log, 2, 0, key, 1);
      var _ := PutTwice(k, v1, v2, key);
    }
    assert Resolve(after, Some(1)) == Ok(1) by { PartialCompactionMisreads(s, log, 2, 0, k, 1); }
    NothingFound(after, range, 1);
  }

  lemma StandsAt(s: Store, log: seq<Event>)
    requires Represents(s, log)
    ensures s.current == LastRevision(log)
  {
  }

  /** Put twice, compact, restart: a read at the first put, refused before, finds nothing. */
  lemma RestartAdmitsLostReads(k: bytes, v1: bytes, v2: bytes, range: Range)
    requires |k| < U32_END
    ensures var ops := WriteEach([Put(k, v1), Put(k, v2)]) + [CompactAt(2)];
            && AllStorable(ops + [Restart]) && Careful(ops + [Restart])
            && RangeOf(RunStore(ops), range, Some(1), None) == Err(Compacted(1, 2))
            && RangeOf(RunStore(ops + [Restart]), range, Some(1), None) == Ok([])
            && Replay(WholeLog(ops + [Restart]), k, 1).Some?
  {
    hide Represents, RunStore, WholeLog, WriteEach, Careful, AllStorable, Replay, Reopened;
    var ms := [Put(k, v1), Put(k, v2)];
    CompactedRun(ms, 2);
    var log := PutTwice(k, v1, v2, k);
    HiddenOnceRestarted(RunStore(WriteEach(ms) + [CompactAt(2)]), k, v1, v2, range);
  }

  lemma HiddenOnceRestarted(s: Store, k: bytes, v1: bytes, v2: bytes, range: Range)
    requires Represents(s, EventsAfter(ZERO, [Put(k, v1), Put(k, v2)])) && s.compacted == 2
    ensures RangeOf(Reopened(s, EventsAfter(ZERO, [Put(k, v1), Put(k, v2)])), range, Some(1), None) == Ok([])
  {
    hide Represents, RangeOf, Replay, Survives;
    var log := EventsAfter(ZERO, [Put(k, v1), Put(k, v2)]);
    ReopenKeepsRevision(s, log);
    StandsAt(s, log);
    var after := Reopened(s, log);
    forall key ensures At(Lookup(after.index, key), 1) == None && Resolve(after, Some(1)) == Ok(1) {
      ReopenForgetsWatermark(s, log, key, 1);
      var _ := PutTwice(k, v1, v2, key);
    }
    NothingFound(after, range, 1);
  }

  // ---- A deleted key brought back --------------------------------------------------------------------

  function PutPutDelete(k: bytes, v1: bytes, v2: bytes): seq<Event> {
    EventsAfter(ZERO, [Put(k, v1), Put(k, v2), Delete(k)])
  }

  lemma PutPutIsOpen(k: bytes, v1: bytes, v2: bytes)
    ensures var log := PutPutDelete(k, v1, v2);
            && EndsAt(log[..2], k, true, 1) && EndsAt(log, k, false, 2) && !AbsentDelete(log, 2)
  {
    hide AbsentDelete, HistoryOf, Open;
    var log := PutPutDelete(k, v1, v2);
    OpenAtPut([log[0]], log[1]);
    OpenAtPut(log[..2], log[2]);
    assert log[..2] == [log[0]] + [log[1]] && log == log[..2] + [log[2]];
  }

  /** Of the three records the first was dropped at 2, the others are at 3. */
  lemma LaterTwoDropped(k: bytes, v1: bytes, v2: bytes)
    requires |k| < U32_END
    ensures var log := PutPutDelete(k, v1, v2);
            && Written(log)
            && forall i :: 0 <= i < 3 ==> (log[i].rev in DroppedAt(TrimIndex(IndexOf(log), 2), 3) <==> i > 0)
  {
    hide Survives, DroppedAt, TrimIndex, IndexOf, AbsentDelete, EndsAt;
    var log := PutPutDelete(k, v1, v2);
    PutPutIsOpen(k, v1, v2);
    assert log == log[..2] + [log[2]];
    forall i | 0 <= i < 3 ensures log[i].rev in DroppedAt(TrimIndex(IndexOf(log), 2), 3) <==> i > 0 {
      DroppedIsNoLongerSurviving(log, 2, 3, i);
      SettledSurvival(log, k, 3, false, 2, i);
      SurvivalIsStable(log[..2], log[2], 2, i);
      if i < 2 { SettledSurvival(log[..2], k, 2, true, 1, i); }
    }
  }

  /** So compacting at 3 leaves the first put's record and not the deletion's. */
  lemma FirstIsLeft(s: Store, k: bytes, v1: bytes, v2: bytes)
    requires Tracks(s, PutPutDelete(k, v1, v2), 2) && Key(PutPutDelete(k, v1, v2)[0]) in s.backend && |k| < U32_END
    ensures var log := PutPutDelete(k, v1, v2);
            && AllValid(DroppedAt(s.index, 3))
            && Key(log[0]) in CompactedTo(s, 3).backend
            && Key(log[1]) !in CompactedTo(s, 3).backend && Key(log[2]) !in CompactedTo(s, 3).backend
  {
    hide DroppedAt, TrimIndex, IndexOf;
    var log, dropped := PutPutDelete(k, v1, v2), DroppedAt(s.index, 3);
    LaterTwoDropped(k, v1, v2);
    DroppedAllValid(log, 2, 3);
    assert dropped[..|dropped|] == dropped;
    forall i | 0 <= i < 3 ensures RemainsOf(s.backend, dropped, log[i]) {
      Remains(s.backend, dropped, log[i]);
    }
    assert RemainsOf(s.backend, dropped, log[0]) && RemainsOf(s.backend, dropped, log[1])
           && RemainsOf(s.backend, dropped, log[2]);
  }

  ghost predicate RemainsOf(backend: Map, revs: seq<Revision>, e: Event)
    requires AllValid(revs) && e.rev.Valid()
  {
    Key(e) in WithoutRecords(backend, revs) <==> Key(e) in backend && e.rev !in revs
  }

  /** A record goes with its revision. */
  lemma Remains(backend: Map, revs: seq<Revision>, e: Event)
    requires AllValid(revs) && e.rev.Valid()
    ensures RemainsOf(backend, revs, e)
  {
    RemovedKeys(backend, revs, Key(e));
    KeyRoundTrip(e.rev, e.m.Delete?, Key(e));
    forall i | 0 <= i < |revs|
      ensures e.rev == revs[i] <==> Key(e) == BackendKey(revs[i], false) || Key(e) == BackendKey(revs[i], true)
    {
      KeyRoundTrip(revs[i], false, Key(e));
      KeyRoundTrip(revs[i], true, Key(e));
    }
  }

  /** What is stored once another key `j` is written, and so what a restart knows. */
  lemma RestartFindsPut(s: Store, k: bytes, v1: bytes, v2: bytes, j: bytes, v: bytes) returns (log: seq<Event>)
    requires Tracks(s, PutPutDelete(k, v1, v2), 3) && s.current == Revision(3, 0) && j != k && |j| < U32_END
    requires var log := PutPutDelete(k, v1, v2);
             Key(log[0]) in s.backend && Key(log[1]) !in s.backend && Key(log[2]) !in s.backend
    ensures log == PutPutDelete(k, v1, v2) + EventsAfter(s.current, [Put(j, v)])
    ensures StoredEvents(ApplyTo(s, [Put(j, v)], 0).backend, log) == [log[0], log[3]]
    ensures Resurfaces(ApplyTo(s, [Put(j, v)], 0).backend, log, k, 4)
  {
    hide Tracks, Select, ApplyTo, Resurfaces;
    log := PutPutDelete(k, v1, v2) + EventsAfter(s.current, [Put(j, v)]);
    var backend := ApplyTo(s, [Put(j, v)], 0).backend;
    OneMoreStored(s, Put(j, v), log[3]);
    forall i | 0 <= i < 4 ensures Key(log[i]) in backend <==> i == 0 || i == 3 {
      KeyIsInjective(log[i], log[3]);
    }
    FirstAndLast(log, StoredSet(backend, log));
    ResurfacesFirst(log, k, backend);
  }

  lemma OneMoreStored(s: Store, m: Mutation, e: Event)
    requires s.current.main < I64_MAX && e == EventsAfter(s.current, [m])[0]
    ensures e.rev.Valid()
    ensures forall key :: key in ApplyTo(s, [m], 0).backend <==> key in s.backend || key == Key(e) || key == APPLIED_KEY
  {
    var events := EventsAfter(s.current, [m]);
    assert Front(events) == [];
    assert WithRecords(s.backend, []) == s.backend;
    assert WithRecords(s.backend, events) == s.backend[Key(e) := Value(e)];
  }

  lemma FirstAndLast(log: seq<Event>, keep: set<nat>)
    requires |log| == 4 && 0 in keep && 1 !in keep && 2 !in keep && 3 in keep
    ensures Select(log, keep, 4) == [log[0], log[3]]
  {
    assert Select(log, keep, 1) == [log[0]] by { assert Select(log, keep, 0) == []; }
    assert Select(log, keep, 2) == [log[0]];
    assert Select(log, keep, 3) == [log[0]];
  }

  lemma ResurfacesFirst(log: seq<Event>, k: bytes, backend: Map)
    requires |log| == 4 && log[3].m.key != k && log[2].m == Delete(k) && log[0].m.key == k && log[0].m.Put?
    requires log[2].rev.main <= 4 && log[0].rev.main <= 4 && StoredEvents(backend, log) == [log[0], log[3]]
    ensures Resurfaces(backend, log, k, 4)
  {
    assert LastOf(log, k, 4) == LastOf(Front(log), k, 4) == Some(log[2]);
    assert Front([log[0], log[3]]) == [log[0]];
    assert LastOf([log[0], log[3]], k, 4) == LastOf([log[0]], k, 4) == Some(log[0]);
  }

  /** Put twice, a compaction that fails, delete. */
  function FailedThenDeleted(k: bytes, v1: bytes, v2: bytes): seq<StoreOp> {
    WriteEach([Put(k, v1), Put(k, v2)]) + [CompactFails(2, 0)] + [Writes(Delete(k))]
  }

  /** Then compact past it and write something else. */
  function Overrun(k: bytes, v1: bytes, v2: bytes, j: bytes, v: bytes): seq<StoreOp> {
    FailedThenDeleted(k, v1, v2) + [CompactAt(3)] + [Writes(Put(j, v))]
  }

  /** What both the store and the run know of, so far without a restart. */
  ghost predicate Knows(ops: seq<StoreOp>, log: seq<Event>, w: nat) {
    && AllStorable(ops) && LogAfter(ops) == WholeLog(ops) == log && Sought(ops) == HighWater(ops) == w
    && Tracks(RunStore(ops), log, w) && RunStore(ops).current == LastRevision(log)
  }

  lemma KnowsMore(ops: seq<StoreOp>, log: seq<Event>, w: nat, op: StoreOp)
    requires Knows(ops, log, w) && Accepts(RunStore(ops), op) && (op.ApplyBatch? ==> Storable(op.batch)) && !op.Restart?
    ensures RunStore(ops + [op]) == Performed(RunStore(ops), op)
    ensures Knows(ops + [op], LogNext(RunStore(ops), log, op), SoughtNext(w, op))
  {
    hide RunStore, LogAfter, WholeLog, Sought, HighWater, Accepts, Performed, EventsAfter;
    Step(ops, op);
    RunTracks(ops + [op]);
    assert log + [] == log;
    StandsAtLast(RunStore(ops + [op]), LogAfter(ops + [op]), Sought(ops + [op]));
  }

  lemma StandsAtLast(s: Store, log: seq<Event>, w: nat)
    requires Tracks(s, log, w)
    ensures s.current == LastRevision(log)
  {
  }

  lemma AllWereStored(s: Store, log: seq<Event>)
    requires Represents(s, log) && s.compacted == 0
    ensures forall i :: 0 <= i < |log| ==> Key(log[i]) in s.backend
  {
    forall i | 0 <= i < |log| ensures Key(log[i]) in s.backend {
      EverythingSurvivesAtZero(log, i);
      StoredSurvives(s, log, i);
    }
  }

  lemma FreshKnows(ops: seq<StoreOp>, ms: seq<Mutation>)
    requires Fresh(ops, ms)
    ensures Knows(ops, EventsAfter(ZERO, ms), 0)
    ensures Represents(RunStore(ops), EventsAfter(ZERO, ms)) && RunStore(ops).compacted == 0
  {
    hide RunStore, LogAfter, WholeLog, Sought, HighWater, Tidy, Represents, Tracks;
    RunTracks(ops);
    RunRepresents(ops);
  }

  lemma FirstStillStored(k: bytes, v1: bytes, v2: bytes)
    requires |k| < U32_END
    ensures var ops, log := FailedThenDeleted(k, v1, v2), PutPutDelete(k, v1, v2);
            Knows(ops, log, 2) && Key(log[0]) in RunStore(ops).backend
  {
    hide Knows, RunStore, Represents, WriteEach, Tracks, LogAfter, WholeLog, Fresh, DroppedAt, AllStorable;
    var ms, log := [Put(k, v1), Put(k, v2)], EventsAfter(ZERO, [Put(k, v1), Put(k, v2)]);
    var ops := WriteEach(ms);
    WroteEach(ms);
    FreshKnows(ops, ms);
    AllWereStored(RunStore(ops), log);
    MayCompact(RunStore(ops), log, 0, 2) by { KnowsIts(ops, log, 0); }
    KnowsMore(ops, log, 0, CompactFails(2, 0));
    ops := ops + [CompactFails(2, 0)];
    KnowsIts(ops, log, 2);
    KnowsMore(ops, log, 2, Writes(Delete(k)));
    assert PutPutDelete(k, v1, v2) == log + EventsAfter(Revision(2, 0), [Delete(k)]);
    StaysStored(RunStore(ops), Delete(k), Key(log[0]));
  }

  lemma KnowsIts(ops: seq<StoreOp>, log: seq<Event>, w: nat)
    requires Knows(ops, log, w)
    ensures Tracks(RunStore(ops), log, w) && RunStore(ops).current == LastRevision(log)
  {
  }

  lemma StaysStored(s: Store, m: Mutation, key: bytes)
    requires key in s.backend && s.current.main < I64_MAX
    ensures key in ApplyTo(s, [m], 0).backend
  {
    var events := EventsAfter(s.current, [m]);
    assert Front(events) == [];
    assert WithRecords(s.backend, []) == s.backend;
  }

  lemma CompactedPast(k: bytes, v1: bytes, v2: bytes)
    requires |k| < U32_END
    ensures var ops, log := FailedThenDeleted(k, v1, v2) + [CompactAt(3)], PutPutDelete(k, v1, v2);
            var backend := RunStore(ops).backend;
            && Knows(ops, log, 3) && RunStore(ops).current == Revision(3, 0)
            && Key(log[0]) in backend && Key(log[1]) !in backend && Key(log[2]) !in backend
  {
    hide Knows, RunStore, Tracks, FailedThenDeleted, DroppedAt, CompactedTo;
    var ops, log := FailedThenDeleted(k, v1, v2), PutPutDelete(k, v1, v2);
    FirstStillStored(k, v1, v2);
    KnowsIts(ops, log, 2);
    FirstIsLeft(RunStore(ops), k, v1, v2);
    MayCompact(RunStore(ops), log, 2, 3);
    KnowsMore(ops, log, 2, CompactAt(3));
    KnowsIts(ops + [CompactAt(3)], log, 3);
  }

  lemma OverrunKnows(k: bytes, v1: bytes, v2: bytes, j: bytes, v: bytes) returns (log: seq<Event>)
    requires |k| < U32_END && |j| < U32_END && j != k
    ensures var ops := Overrun(k, v1, v2, j, v);
            && Knows(ops, log, 3) && |log| == 4 && log[3].rev == Revision(4, 0)
            && StoredEvents(RunStore(ops).backend, log) == [log[0], log[3]]
            && Resurfaces(RunStore(ops).backend, log, k, 4) && Replay(log, k, 4).None?
  {
    hide Knows, RunStore, Tracks, FailedThenDeleted, Resurfaces, StoredEvents, ApplyTo, Replay;
    var ops, first := FailedThenDeleted(k, v1, v2) + [CompactAt(3)], PutPutDelete(k, v1, v2);
    CompactedPast(k, v1, v2);
    KnowsIts(ops, first, 3);
    log := RestartFindsPut(RunStore(ops), k, v1, v2, j, v);
    KnowsMore(ops, first, 3, Writes(Put(j, v)));
    KnowsIts(Overrun(k, v1, v2, j, v), log, 3);
    RestartedReads(RunStore(Overrun(k, v1, v2, j, v)), log, 3, k, 4);
  }

  lemma BackOnRestart(ops: seq<StoreOp>, key: bytes, at: nat)
    requires Accepts(RunStore(ops), Restart) && Resurfaces(RunStore(ops).backend, LogAfter(ops), key, at)
    ensures BroughtBack(ops + [Restart], key, at)
  {
    hide RunStore, LogAfter, Resurfaces, Accepts;
    assert Front(ops + [Restart]) == ops && Last(ops + [Restart]) == Restart;
  }

  lemma OverrunRestarts(k: bytes, v1: bytes, v2: bytes, j: bytes, v: bytes)
    requires |k| < U32_END && |j| < U32_END && j != k
    ensures var ops := Overrun(k, v1, v2, j, v) + [Restart];
            && AllStorable(ops) && HighWater(ops) == 3 && RunStore(ops).current == Revision(4, 0)
            && BroughtBack(ops, k, 4) && Replay(WholeLog(ops), k, 4).None?
  {
    hide Knows, RunStore, Tracks, Represents, Overrun, Resurfaces, StoredEvents, LogAfter, WholeLog, HighWater, Sought,
      BroughtBack, Replay, OpenOf, AllStorable, Tidy;
    var ops := Overrun(k, v1, v2, j, v);
    var log := OverrunKnows(k, v1, v2, j, v);
    KnowsIts(ops, log, 3);
    KnowsAll(ops, log, 3);
    RestartRepresents(RunStore(ops), log, 3);
    Step(ops, Restart);
    NothingAdded(log);
    BackOnRestart(ops, k, 4);
  }

  /** The restart brings back the deleted key, for every later read. */
  lemma RestartRevivesDeleted(k: bytes, v1: bytes, v2: bytes, j: bytes, v: bytes, range: Range)
    requires |k| < U32_END && |j| < U32_END && j != k && range.Contains(k) && !range.Panics()
    ensures var ops := Overrun(k, v1, v2, j, v) + [Restart];
            var rows := RangeOf(RunStore(ops), range, Some(4), None);
            && AllStorable(ops) && HighWater(ops) == 3
            && Replay(WholeLog(ops), k, 4).None? && rows.Ok? && Lists(rows.value, k)
  {
    hide RunStore, Overrun, RangeOf, WholeLog, HighWater, BroughtBack, Replay, AllStorable, Lists, ReadsAs;
    OverrunRestarts(k, v1, v2, j, v);
    ReadsSurviveRestarts(Overrun(k, v1, v2, j, v) + [Restart], range, 4);
  }

  lemma KnowsAll(ops: seq<StoreOp>, log: seq<Event>, w: nat)
    requires Knows(ops, log, w)
    ensures AllStorable(ops) && LogAfter(ops) == WholeLog(ops) == log && HighWater(ops) == w
  {
  }
}
