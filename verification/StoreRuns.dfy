/**
 The store over whole runs of its own operations: batches, history compactions, those the
 backend failed part way included, checkpoints and restarts, in any order.
 */
module StoreRuns {
  import opened Wrappers
  import opened Sequences
  import opened ByteStrings
  import opened Revisions
  import opened Mutations
  import opened StoredRecord
  import opened OrderedScan
  import opened Histories
  import opened Indexes
  import opened Stores
  import opened StoreInvariant
  import opened StoreReads
  import opened StoreCompaction
  import opened StoreReopen
  import opened StoreLeftovers
  import opened StoreRestarts

  /**
   One operation; `ok` says whether the backend committed it, `removed` how many records
   the backend had removed when it failed.
   */
  datatype StoreOp =
    | ApplyBatch(batch: seq<Mutation>, upto: nat, ok: bool)
    | CompactAt(at: nat)
    | CompactFails(at: nat, removed: nat)
    | Checkpointed
    | Restart

  predicate Compacts(op: StoreOp) {
    op.CompactAt? || op.CompactFails?
  }

  /** Whether compaction at `at` goes ahead and can remove its first `n` dropped records. */
  predicate Compactable(s: Store, at: nat, n: nat) {
    && CompactRefusal(s, at).None?
    && n <= |DroppedAt(s.index, at)|
    && forall i :: 0 <= i < n ==> DroppedAt(s.index, at)[i].Valid()
  }

  predicate Accepts(s: Store, op: StoreOp) {
    match op
    case ApplyBatch(batch, upto, ok) => ok && s.current.main + |batch| <= I64_MAX && upto < U64_END
    case CompactAt(at) => Compactable(s, at, |DroppedAt(s.index, at)|)
    case CompactFails(at, removed) => Compactable(s, at, removed)
    case Checkpointed => s.applied < U64_END
    case Restart => OpenOf(s.backend).Ok?
  }

  function Performed(s: Store, op: StoreOp): Store
    requires Accepts(s, op)
  {
    match op
    case ApplyBatch(batch, upto, _) => ApplyTo(s, batch, upto)
    case CompactAt(at) => CompactedTo(s, at)
    case CompactFails(at, removed) => CompactedPartly(s, at, removed)
    case Checkpointed => CheckpointOf(s)
    case Restart => OpenOf(s.backend).value
  }

  /** The store after some operations, those refused leaving it alone. */
  function RunStore(ops: seq<StoreOp>): Store {
    if ops == [] then Store(map[], map[], ZERO, 0, 0)
    else
      var s := RunStore(Front(ops));
      if Accepts(s, Last(ops)) then Performed(s, Last(ops)) else s
  }

  /** The events a store knows of once an operation on it is accepted. */
  function LogNext(s: Store, log: seq<Event>, op: StoreOp): seq<Event> {
    match op
    case ApplyBatch(batch, _, _) => log + EventsAfter(s.current, batch)
    case Restart => StoredEvents(s.backend, log)
    case _ => log
  }

  /** The events of a run the store still knows of: a restart forgets those whose records are gone. */
  function LogAfter(ops: seq<StoreOp>): seq<Event> {
    if ops == [] then []
    else
      var s, log := RunStore(Front(ops)), LogAfter(Front(ops));
      if Accepts(s, Last(ops)) then LogNext(s, log, Last(ops)) else log
  }

  /** Every event of a run. */
  function WholeLog(ops: seq<StoreOp>): seq<Event> {
    if ops == [] then []
    else
      var s := RunStore(Front(ops));
      WholeLog(Front(ops)) +
      if Accepts(s, Last(ops)) && Last(ops).ApplyBatch? then EventsAfter(s.current, Last(ops).batch) else []
  }

  /** The highest point history compaction was tried at since the last restart. */
  function SoughtNext(w: nat, op: StoreOp): nat {
    if op.Restart? then 0 else if Compacts(op) && op.at > w then op.at else w
  }

  function Sought(ops: seq<StoreOp>): nat {
    if ops == [] then 0
    else
      var w := Sought(Front(ops));
      if Accepts(RunStore(Front(ops)), Last(ops)) then SoughtNext(w, Last(ops)) else w
  }

  /** The highest point a whole run tried to compact history at. */
  function HighWater(ops: seq<StoreOp>): nat {
    if ops == [] then 0
    else
      var w := HighWater(Front(ops));
      if Accepts(RunStore(Front(ops)), Last(ops)) && Compacts(Last(ops)) && Last(ops).at > w then Last(ops).at else w
  }

  /** No compaction has failed since the last restart. */
  predicate Tidy(ops: seq<StoreOp>) {
    ops == [] || Last(ops).Restart? || (Tidy(Front(ops)) && !Last(ops).CompactFails?)
  }

  /** After a compaction failed none is tried at a higher point before a restart. */
  predicate Careful(ops: seq<StoreOp>) {
    ops == [] ||
    (Careful(Front(ops)) && (Compacts(Last(ops)) && Last(ops).at > Sought(Front(ops)) ==> Tidy(Front(ops))))
  }

  ghost predicate AllStorable(ops: seq<StoreOp>) {
    forall i :: 0 <= i < |ops| && ops[i].ApplyBatch? ==> Storable(ops[i].batch)
  }

  // ---- What every run keeps ----------------------------------------------------------------------

  lemma PerformTracks(s: Store, log: seq<Event>, w: nat, op: StoreOp)
    requires Tracks(s, log, w) && Accepts(s, op) && (op.ApplyBatch? ==> Storable(op.batch))
    ensures Tracks(Performed(s, op), LogNext(s, log, op), SoughtNext(w, op))
  {
    hide Tracks, ApplyTo, CompactedTo, CompactedPartly, CheckpointOf, OpenOf, DroppedAt, EventsAfter;
    match op
    case ApplyBatch(batch, upto, _) => ApplyTracks(s, log, batch, upto, w);
    case CompactAt(at) => CompletedTracks(s, log, w, at);
    case CompactFails(at, removed) => CompactionTracks(s, log, w, at, removed);
    case Checkpointed => CheckpointTracks(s, log, w);
    case Restart =>
      RestartRepresents(s, log, w);
      RepresentsTracks(Revived(s, log), StoredEvents(s.backend, log));
  }

  /** After any run the index and the records serve reads at or after the highest point tried. */
  lemma {:induction false} RunTracks(ops: seq<StoreOp>)
    requires AllStorable(ops)
    ensures Tracks(RunStore(ops), LogAfter(ops), Sought(ops)) && Sought(ops) <= HighWater(ops)
  {
    hide Tracks, Performed, LogNext, Accepts;
    if ops == [] {
      EmptyRepresents();
      RepresentsTracks(RunStore([]), []);
    } else {
      var front := Front(ops);
      RunTracks(front);
      if Accepts(RunStore(front), Last(ops)) {
        PerformTracks(RunStore(front), LogAfter(front), Sought(front), Last(ops));
      }
    }
  }

  lemma PerformRepresents(s: Store, log: seq<Event>, w: nat, op: StoreOp)
    requires Accepts(s, op) && (op.ApplyBatch? ==> Storable(op.batch)) && !op.CompactFails?
    requires Tracks(s, log, w) && (!op.Restart? ==> Represents(s, log) && s.compacted == w)
    ensures Represents(Performed(s, op), LogNext(s, log, op)) && Performed(s, op).compacted == SoughtNext(w, op)
  {
    hide Represents, Tracks;
    match op
    case ApplyBatch(batch, upto, _) => ApplyKeepsInvariant(s, log, batch, upto);
    case CompactAt(at) => CompactKeepsInvariant(s, log, at);
    case Checkpointed => CheckpointKeepsInvariant(s, log);
    case Restart => RestartRepresents(s, log, w);
  }

  /** Where no compaction failed since the last restart, nothing else is stored. */
  lemma {:induction false} RunRepresents(ops: seq<StoreOp>)
    requires AllStorable(ops) && Tidy(ops)
    ensures Represents(RunStore(ops), LogAfter(ops)) && RunStore(ops).compacted == Sought(ops)
  {
    hide Represents, Tracks, Performed, LogNext;
    if ops == [] {
      EmptyRepresents();
    } else {
      var front, op := Front(ops), Last(ops);
      RunTracks(front);
      if !op.Restart? { RunRepresents(front); }
      AcceptsRestart(RunStore(front), LogAfter(front), Sought(front));
      if Accepts(RunStore(front), op) {
        PerformRepresents(RunStore(front), LogAfter(front), Sought(front), op);
      }
    }
  }

  lemma AcceptsRestart(s: Store, log: seq<Event>, w: nat)
    requires Tracks(s, log, w)
    ensures Accepts(s, Restart)
  {
    RestartRepresents(s, log, w);
  }

  // ---- What restarts bring back --------------------------------------------------------------------

  /**
   Whether a restart of the run brought back a key gone by `at`, with nothing written to
   the key at or before `at` since.
   */
  predicate BroughtBack(ops: seq<StoreOp>, key: bytes, at: nat) {
    ops != [] &&
    var s, op, before := RunStore(Front(ops)), Last(ops), BroughtBack(Front(ops), key, at);
    if !Accepts(s, op) then before
    else match op
      case ApplyBatch(batch, _, _) => before && LastOf(EventsAfter(s.current, batch), key, at).None?
      case Restart => before || Resurfaces(s.backend, LogAfter(Front(ops)), key, at)
      case _ => before
  }

  /** Events appended to two logs decide how both read, unless none is of the key. */
  lemma {:induction false} ReadsAppended(a: seq<Event>, b: seq<Event>, more: seq<Event>, key: bytes, at: nat)
    ensures if LastOf(more, key, at).None? then Replay(a + more, key, at) == Replay(a, key, at)
            else SameReading(Replay(a + more, key, at), Replay(b + more, key, at))
  {
    if more == [] {
      assert a + more == a;
    } else {
      ReadsAppended(a, b, Front(more), key, at);
      assert Front(a + more) == a + Front(more) && Front(b + more) == b + Front(more);
    }
  }

  /** What the store knows of a key and what the whole run says of it: alike, or only the store has it. */
  ghost predicate KnownAs(known: seq<Event>, whole: seq<Event>, key: bytes, at: nat, back: bool) {
    if back then Replay(known, key, at).Some? && Replay(whole, key, at).None?
    else SameReading(Replay(known, key, at), Replay(whole, key, at))
  }

  lemma KnownAppended(known: seq<Event>, whole: seq<Event>, more: seq<Event>, key: bytes, at: nat, back: bool)
    requires KnownAs(known, whole, key, at, back)
    ensures KnownAs(known + more, whole + more, key, at, back && LastOf(more, key, at).None?)
  {
    ReadsAppended(known, whole, more, key, at);
    ReadsAppended(whole, known, more, key, at);
  }

  lemma KnownRestarted(s: Store, log: seq<Event>, w: nat, whole: seq<Event>, key: bytes, at: nat, back: bool)
    requires Tracks(s, log, w) && w <= at && KnownAs(log, whole, key, at, back)
    ensures KnownAs(StoredEvents(s.backend, log), whole, key, at, back || Resurfaces(s.backend, log, key, at))
  {
    hide Tracks;
    RestartedReads(s, log, w, key, at);
    ReplayIsLast(StoredEvents(s.backend, log), key, at);
  }

  lemma {:induction false} KnownReads(ops: seq<StoreOp>, key: bytes, at: nat)
    requires AllStorable(ops) && HighWater(ops) <= at
    ensures KnownAs(LogAfter(ops), WholeLog(ops), key, at, BroughtBack(ops, key, at))
  {
    hide Tracks, Performed, StoredEvents, KnownAs, Resurfaces, LastOf;
    if ops == [] {
      NothingKnown(key, at);
    } else {
      var front, op := Front(ops), Last(ops);
      var s, log, whole := RunStore(front), LogAfter(front), WholeLog(front);
      KnownReads(front, key, at);
      RunTracks(front);
      NothingAdded(whole);
      if Accepts(s, op) {
        match op
        case ApplyBatch(batch, _, _) =>
          KnownAppended(log, whole, EventsAfter(s.current, batch), key, at, BroughtBack(front, key, at));
        case Restart => KnownRestarted(s, log, Sought(front), whole, key, at, BroughtBack(front, key, at));
        case _ =>
      }
    }
  }

  lemma NothingKnown(key: bytes, at: nat)
    ensures KnownAs([], [], key, at, false)
  {
  }

  lemma NothingAdded(log: seq<Event>)
    ensures log + [] == log
  {
  }

  /** A careful run brings nothing back, at any restart. */
  lemma {:induction false} CarefulRunShadows(ops: seq<StoreOp>)
    requires AllStorable(ops) && Careful(ops)
    ensures Written(LogAfter(ops)) && Shadowed(RunStore(ops).backend, LogAfter(ops))
  {
    hide Represents, Tracks, Performed, LogNext, Accepts, Shadowed, CompactRefusal;
    if ops == [] {
      EmptyRepresents();
      RepresentsShadowed(RunStore([]), []);
    } else {
      var front, op := Front(ops), Last(ops);
      CarefulRunShadows(front);
      RunTracks(front);
      if Tidy(front) { RunRepresents(front); }
      if Accepts(RunStore(front), op) {
        PerformShadows(RunStore(front), LogAfter(front), Sought(front), op);
      }
    }
  }

  lemma PerformShadows(s: Store, log: seq<Event>, w: nat, op: StoreOp)
    requires Accepts(s, op) && (op.ApplyBatch? ==> Storable(op.batch))
    requires Tracks(s, log, w) && Written(log) && Shadowed(s.backend, log)
    requires Compacts(op) && op.at > w ==> Represents(s, log)
    ensures Written(LogNext(s, log, op)) && Shadowed(Performed(s, op).backend, LogNext(s, log, op))
  {
    hide Represents, Tracks, Shadowed, DroppedAt, EventsAfter, Written;
    var next := LogNext(s, log, op);
    assert Readable(s, log, w) && s.current == LastRevision(log) by { TracksServes(s, log, w); }
    match op
    case ApplyBatch(batch, upto, _) => ApplyShadowed(s, log, batch, upto);
    case CompactAt(at) => CompactionShadows(s, log, w, at, |DroppedAt(s.index, at)|);
    case CompactFails(at, removed) => CompactionShadows(s, log, w, at, removed);
    case Checkpointed => MarkerShadowed(s.backend, log, EncodePosition(s.applied));
    case Restart =>
      RestartRepresents(s, log, w);
      RepresentsShadowed(Revived(s, log), next);
  }

  lemma TracksServes(s: Store, log: seq<Event>, w: nat)
    requires Tracks(s, log, w)
    ensures Readable(s, log, w) && s.current == LastRevision(log)
  {
  }

  lemma CompactionShadows(s: Store, log: seq<Event>, w: nat, c: nat, n: nat)
    requires Readable(s, log, w) && Shadowed(s.backend, log) && Compactable(s, c, n)
    requires c > w ==> Represents(s, log)
    ensures Shadowed(CompactedPartly(s, c, n).backend, log)
  {
    hide Represents, Shadowed, DroppedAt, TrimIndex;
    if c > w {
      StoppedShadowed(s, log, c, n);
    } else {
      NoFurther(s, log, w, c);
      assert DroppedAt(s.index, c)[..n] == [];
    }
  }

  lemma {:induction false} CarefulBringsNothingBack(ops: seq<StoreOp>, key: bytes, at: nat)
    requires AllStorable(ops) && Careful(ops)
    ensures !BroughtBack(ops, key, at)
  {
    hide Performed, Resurfaces, Shadowed, EventsAfter;
    if ops != [] {
      var front := Front(ops);
      CarefulBringsNothingBack(front, key, at);
      CarefulRunShadows(front);
      ShadowedIsSafe(RunStore(front).backend, LogAfter(front), key, at);
    }
  }

  // ---- Reads over whole runs -----------------------------------------------------------------------

  /** The keys a row listing names. */
  ghost predicate Lists(rows: seq<Row>, key: bytes) {
    exists i :: 0 <= i < |rows| && rows[i].key == key
  }

  /** A row with the value and modified revision replay gives its key. */
  ghost predicate ReadsAs(row: Row, log: seq<Event>, at: nat) {
    SameReading(Some(Version(row.value, ZERO, row.modified, 0)), Replay(log, row.key, at))
  }

  /**
   Whatever a run did, a read at or after the highest point it tried to compact at names
   exactly the keys that replaying every event of the run leaves and those a restart brought
   back; each of the former has the value and modified revision replay gives it.
   */
  lemma ReadsSurviveRestarts(ops: seq<StoreOp>, range: Range, at: nat)
    requires AllStorable(ops) && HighWater(ops) <= at <= RunStore(ops).current.main && !range.Panics()
    ensures var rows := RangeOf(RunStore(ops), range, Some(at), None);
            && rows.Ok?
            && (forall i :: 0 <= i < |rows.value| ==>
                  (ReadsAs(rows.value[i], WholeLog(ops), at) <==> !BroughtBack(ops, rows.value[i].key, at)))
            && (forall key :: Lists(rows.value, key) <==>
                  range.Contains(key) && (Replay(WholeLog(ops), key, at).Some? || BroughtBack(ops, key, at)))
  {
    hide Tracks, RangeOf, RunStore, LogAfter, WholeLog, HighWater, Sought, Replay, BroughtBack;
    var s, log, whole := RunStore(ops), LogAfter(ops), WholeLog(ops);
    RunTracks(ops);
    ReadIsAdmitted(s, log, Sought(ops), at);
    ReadIsReplayedKeyspace(s, log, Sought(ops), range, Some(at), None);
    var rows := RangeOf(s, range, Some(at), None).value;
    var all :| ReadsBack(all, log, range, at) && rows <= all && |rows| == |all|;
    assert rows == all;
    forall i | 0 <= i < |rows| ensures ReadsAs(rows[i], whole, at) <==> !BroughtBack(ops, rows[i].key, at) {
      KnownReads(ops, rows[i].key, at);
    }
    forall key
      ensures Lists(rows, key) <==> range.Contains(key) && (Replay(whole, key, at).Some? || BroughtBack(ops, key, at))
    {
      KnownReads(ops, key, at);
    }
  }

  lemma ReadIsAdmitted(s: Store, log: seq<Event>, w: nat, at: nat)
    requires Tracks(s, log, w) && w <= at <= s.current.main
    ensures Readable(s, log, w) && s.compacted <= at
  {
  }

  /** A run in which no compaction fails is a careful one. */
  lemma {:induction false} UnfailedIsCareful(ops: seq<StoreOp>)
    requires forall i :: 0 <= i < |ops| ==> !ops[i].CompactFails?
    ensures Tidy(ops) && Careful(ops)
  {
    if ops != [] {
      UnfailedIsCareful(Front(ops));
    }
  }

  /** A careful run reads as replay does, restarts included. */
  lemma CarefulReadsSurvive(ops: seq<StoreOp>, range: Range, at: nat)
    requires AllStorable(ops) && Careful(ops) && HighWater(ops) <= at <= RunStore(ops).current.main && !range.Panics()
    ensures var rows := RangeOf(RunStore(ops), range, Some(at), None);
            && rows.Ok?
            && (forall i :: 0 <= i < |rows.value| ==> ReadsAs(rows.value[i], WholeLog(ops), at))
            && (forall key :: Lists(rows.value, key) <==> range.Contains(key) && Replay(WholeLog(ops), key, at).Some?)
  {
    hide RangeOf, RunStore, WholeLog, HighWater, Replay, BroughtBack, Careful, ReadsAs, Lists;
    ReadsSurviveRestarts(ops, range, at);
    forall key ensures !BroughtBack(ops, key, at) { CarefulBringsNothingBack(ops, key, at); }
  }

  /**
   Below the highest point tried, a run's store still admits reads from its watermark on:
   one reads the key as replaying what the store knows does, unless it was there then and
   replay gives something else at that point: then it reads as absent.
   */
  lemma ReadsBelowTried(ops: seq<StoreOp>, key: bytes, at: nat)
    requires AllStorable(ops) && RunStore(ops).compacted <= at <= Sought(ops)
    ensures var log := LogAfter(ops);
            var past, later := Metadata(Replay(log, key, at)), Metadata(Replay(log, key, Sought(ops)));
            && Resolve(RunStore(ops), Some(at)) == Ok(at)
            && At(Lookup(RunStore(ops).index, key), at) == if past == later then past else None
  {
    hide RunStore, LogAfter, Sought, OnlyRecords, HoldsAll, Replay, Metadata, HistoryOf, Trim, At;
    var log, w := LogAfter(ops), Sought(ops);
    RunTracks(ops);
    RisingIsOrdered(log);
    HistoryValid(log, key, LastRevision(log).main);
    ReadIsReplay(log, key, at);
    ReadIsReplay(log, key, w);
    ReadsBeforePoint(HistoryOf(log, key), w, at);
    IndexHistories(log, w);
  }

  /** A run without history compaction loses nothing to restarts: rows are replayed in full. */
  lemma {:induction false} UncompactedRunsRestartWhole(ops: seq<StoreOp>)
    requires AllStorable(ops) && forall i :: 0 <= i < |ops| ==> !Compacts(ops[i])
    ensures Tidy(ops) && Sought(ops) == RunStore(ops).compacted == 0 && LogAfter(ops) == WholeLog(ops)
    ensures OpenOf(RunStore(ops).backend) == Ok(RunStore(ops))
  {
    hide Represents, Performed, OpenOf, Accepts, StoredEvents;
    if ops != [] {
      var front := Front(ops);
      UncompactedRunsRestartWhole(front);
      RunRepresents(front);
      AllStored(RunStore(front), LogAfter(front));
      NothingAdded(WholeLog(front));
    }
    RunRepresents(ops);
    ReopenIsIdentity(RunStore(ops), LogAfter(ops));
  }

  lemma AllStored(s: Store, log: seq<Event>)
    requires Represents(s, log) && s.compacted == 0
    ensures StoredEvents(s.backend, log) == log
  {
    forall i | 0 <= i < |log| ensures i in StoredSet(s.backend, log) {
      EverythingSurvivesAtZero(log, i);
      StoredSurvives(s, log, i);
    }
    SelectAll(log, StoredSet(s.backend, log), |log|);
    assert log[..|log|] == log;
  }
}
