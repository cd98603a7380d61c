/**
 The store after a history compaction its backend failed: the index has forgotten revisions
 whose records are still stored. What still holds, and what a restart then brings back.
 */
module StoreLeftovers {
  import opened Wrappers
  import opened Sequences
  import opened ByteStrings
  import opened Revisions
  import opened Mutations
  import opened StoredRecord
  import opened OrderedScan
  import opened Histories
  import opened Indexes
  import opened Stores
  import opened StoreInvariant
  import opened StoreCompaction
  import opened StoreReopen

  ghost predicate IsKeyOf(log: seq<Event>, k: bytes)
    requires Written(log)
  {
    exists i :: 0 <= i < |log| && k == Key(log[i])
  }

  /** Whatever is stored is the record of some event of the log. */
  ghost predicate OnlyRecords(backend: Map, log: seq<Event>)
    requires Written(log)
  {
    && (forall i :: 0 <= i < |log| && Key(log[i]) in backend ==> backend[Key(log[i])] == Value(log[i]))
    && (forall k :: k in backend && k != APPLIED_KEY ==> IsKeyOf(log, k))
  }

  /**
   Index and records serve reads at or after `w`, the highest point compaction was asked
   for, whether it completed or not; other records may be left over.
   */
  ghost predicate Tracks(s: Store, log: seq<Event>, w: nat) {
    && Readable(s, log, w)
    && OnlyRecords(s.backend, log)
    && s.current == LastRevision(log)
    && s.compacted <= w <= s.current.main
    && s.applied < U64_END
    && AppliedIn(s.backend) == Ok(s.applied)
  }

  lemma RepresentsTracks(s: Store, log: seq<Event>)
    requires Represents(s, log)
    ensures Tracks(s, log, s.compacted)
  {
    forall i | 0 <= i < |log| && Key(log[i]) in s.backend ensures s.backend[Key(log[i])] == Value(log[i]) {
      KeyIsInjective(log[i], log[i]);
      StoredSurvives(s, log, i);
    }
    forall k | k in s.backend && k != APPLIED_KEY ensures IsKeyOf(log, k) {
      assert IsRecordOf(log, s.compacted, k);
    }
  }

  /** Where nothing is left over, what is stored survives. */
  lemma StoredSurvives(s: Store, log: seq<Event>, i: nat)
    requires Represents(s, log) && i < |log|
    ensures Key(log[i]) in s.backend <==> Survives(log, i, s.compacted)
  {
    KeyIsInjective(log[i], log[i]);
    if Key(log[i]) in s.backend {
      assert IsRecordOf(log, s.compacted, Key(log[i]));
      var j :| 0 <= j < |log| && Survives(log, j, s.compacted) && Key(log[i]) == Key(log[j]);
      KeyIsInjective(log[i], log[j]);
      RevisionNamesEvent(log, i, j);
    }
  }

  // ---- Every operation keeps it ------------------------------------------------------------------

  lemma RecordsJoin(backend: Map, log: seq<Event>, e: Event)
    requires Written(log) && Written(log + [e]) && e.rev.Valid() && OnlyRecords(backend, log)
    ensures OnlyRecords(backend[Key(e) := Value(e)], log + [e])
  {
    var all, next := log + [e], backend[Key(e) := Value(e)];
    forall i | 0 <= i < |all| && Key(all[i]) in next ensures next[Key(all[i])] == Value(all[i]) {
      KeyIsInjective(all[i], e);
      if i < |log| {
        assert all[i].rev.Before(all[|log|].rev) && all[i] == log[i];
      }
    }
    forall k | k in next && k != APPLIED_KEY ensures IsKeyOf(all, k) {
      if k == Key(e) {
        assert all[|log|] == e;
      } else {
        assert IsKeyOf(log, k);
        var i :| 0 <= i < |log| && k == Key(log[i]);
        assert all[i] == log[i];
      }
    }
  }

  /** Enough to read and to go on recording. */
  ghost predicate Serves(s: Store, log: seq<Event>, w: nat) {
    Readable(s, log, w) && OnlyRecords(s.backend, log)
  }

  lemma OneEventServes(s: Store, log: seq<Event>, e: Event, w: nat)
    requires Serves(s, log, w) && e.rev.Valid() && Extends(log, e, w)
    ensures var next := s.(backend := s.backend[Key(e) := Value(e)], index := IndexRecord(s.index, e.m, e.rev));
            Serves(next, log + [e], w)
  {
    hide OnlyRecords, HoldsAll;
    IndexJoins(log, e, w);
    RecordJoins(s.backend, log, e, w);
    RecordsJoin(s.backend, log, e);
  }

  lemma {:induction false} EventsServe(s: Store, log: seq<Event>, events: seq<Event>, w: nat)
    requires Serves(s, log, w) && Written(log + events) && ValidRevisions(events)
    requires forall i :: 0 <= i < |events| ==> w < events[i].rev.main
    ensures Serves(WithEvents(s, events), log + events, w)
    ensures AppliedIn(WithEvents(s, events).backend) == AppliedIn(s.backend)
  {
    hide Serves;
    if events == [] {
      assert log + events == log;
    } else {
      var front, e := Front(events), Last(events);
      assert log + events == (log + front) + [e];
      WrittenFront(log + events);
      assert Front(log + events) == log + front;
      EventsServe(s, log, front, w);
      OneEventServes(WithEvents(s, front), log + front, e, w);
      KeyIsInjective(e, e);
    }
  }

  lemma MarkerServes(s: Store, log: seq<Event>, w: nat, n: nat)
    requires Serves(s, log, w) && n < U64_END
    ensures var next := s.(backend := s.backend[APPLIED_KEY := EncodePosition(n)]);
            Serves(next, log, w) && AppliedIn(next.backend) == Ok(n)
  {
    hide Survives, TrimIndex, IndexOf, EncodePosition, DecodePosition;
    PositionRoundTrip(n);
    forall i | 0 <= i < |log| ensures Key(log[i]) != APPLIED_KEY { KeyIsInjective(log[i], log[i]); }
  }

  /** Batches go on being applied. */
  lemma ApplyTracks(s: Store, log: seq<Event>, batch: seq<Mutation>, upto: nat, w: nat)
    requires Tracks(s, log, w) && Storable(batch) && s.current.main + |batch| <= I64_MAX && upto < U64_END
    ensures Tracks(ApplyTo(s, batch, upto), log + EventsAfter(s.current, batch), w)
  {
    hide HoldsAll, OnlyRecords;
    var events := EventsAfter(s.current, batch);
    EventsExtend(log, batch);
    EventsServe(s, log, events, w);
    MarkerServes(WithEvents(s, events), log + events, w, upto);
    if events == [] { assert log + events == log; }
    assert ApplyTo(s, batch, upto).current == LastRevision(log + events);
    ServesAlike(WithEvents(s, events).(backend := WithEvents(s, events).backend[APPLIED_KEY := EncodePosition(upto)]),
                ApplyTo(s, batch, upto), log + events, w);
  }

  lemma ServesAlike(a: Store, b: Store, log: seq<Event>, w: nat)
    requires Serves(a, log, w) && a.backend == b.backend && a.index == b.index
    ensures Serves(b, log, w)
  {
  }

  lemma CheckpointTracks(s: Store, log: seq<Event>, w: nat)
    requires Tracks(s, log, w)
    ensures Tracks(CheckpointOf(s), log, w)
  {
    MarkerServes(s, log, w, s.applied);
  }

  /** Compacting no further than before drops nothing. */
  lemma {:induction false} NothingLeftToDrop(idx: IndexMap, keys: seq<bytes>, c: nat)
    requires forall k :: Trim(Lookup(idx, k), c) == Lookup(idx, k)
    ensures DroppedFrom(idx, keys, c) == []
  {
    if keys != [] {
      NothingLeftToDrop(idx, Front(keys), c);
      var h := Lookup(idx, Last(keys));
      DroppedComplementsTrim(h, c);
      assert |AllRevs(h)| == |AllRevs(Trim(h, c))| + |multiset(Dropped(h, c))|;
    }
  }

  lemma NoFurther(s: Store, log: seq<Event>, w: nat, c: nat)
    requires Readable(s, log, w) && c <= w
    ensures DroppedAt(s.index, c) == [] && TrimIndex(s.index, c) == s.index
  {
    RisingIsOrdered(log);
    IndexOfValid(log, LastRevision(log).main);
    TrimIndexTwice(IndexOf(log), w, c, LastRevision(log).main);
    IndexHistories(log, w);
    forall k ensures Trim(Lookup(s.index, k), c) == Lookup(s.index, k) {
      HistoryValid(log, k, LastRevision(log).main);
      TrimTwice(HistoryOf(log, k), w, c);
    }
    NothingLeftToDrop(s.index, Sorted(s.index.Keys), c);
  }

  lemma FewerRecords(backend: Map, log: seq<Event>, revs: seq<Revision>)
    requires Written(log) && OnlyRecords(backend, log) && AllValid(revs)
    ensures OnlyRecords(WithoutRecords(backend, revs), log)
    ensures forall n :: AppliedIn(backend) == Ok(n) ==> AppliedIn(WithoutRecords(backend, revs)) == Ok(n)
  {
    var next := WithoutRecords(backend, revs);
    forall i | 0 <= i < |log| && Key(log[i]) in next ensures next[Key(log[i])] == Value(log[i]) {
      RemovedKeys(backend, revs, Key(log[i]));
    }
    forall k | k in next && k != APPLIED_KEY ensures IsKeyOf(log, k) {
      RemovedKeys(backend, revs, k);
    }
    RemovedKeys(backend, revs, APPLIED_KEY);
  }

  /** Compaction at `c`, stopped after any number of records, serves reads at or after it. */
  lemma CompactionTracks(s: Store, log: seq<Event>, w: nat, c: nat, n: nat)
    requires Tracks(s, log, w) && CompactRefusal(s, c) == None && n <= |DroppedAt(s.index, c)|
    ensures AllValid(DroppedAt(s.index, c))
    ensures Tracks(CompactedPartly(s, c, n), log, if w <= c then c else w)
  {
    hide OnlyRecords, HoldsAll, DroppedAt, TrimIndex, IndexOf;
    if c < w {
      NoFurther(s, log, w, c);
      assert DroppedAt(s.index, c)[..n] == [];
    } else {
      PartialCompactionKeepsReads(s, log, w, c, n);
    }
    FewerRecords(s.backend, log, DroppedAt(s.index, c)[..n]);
  }

  lemma CompletedTracks(s: Store, log: seq<Event>, w: nat, c: nat)
    requires Tracks(s, log, w) && CompactRefusal(s, c) == None
    ensures AllValid(DroppedAt(s.index, c))
    ensures Tracks(CompactedTo(s, c), log, if w <= c then c else w)
  {
    CompactionTracks(s, log, w, c, |DroppedAt(s.index, c)|);
  }

  // ---- Restarting ---------------------------------------------------------------------------------

  function StoredSet(backend: Map, log: seq<Event>): set<nat> {
    set i: nat | i < |log| && log[i].rev.Valid() && Key(log[i]) in backend
  }

  /** The events whose records are stored, in order. */
  function StoredEvents(backend: Map, log: seq<Event>): seq<Event> {
    Select(log, StoredSet(backend, log), |log|)
  }

  lemma StoredMembers(backend: Map, log: seq<Event>, e: Event)
    requires ValidRevisions(log)
    ensures e in StoredEvents(backend, log) <==> exists i :: 0 <= i < |log| && Key(log[i]) in backend && log[i] == e
  {
    SelectMembers(log, StoredSet(backend, log), |log|, e);
    if e in StoredEvents(backend, log) {
      var i :| 0 <= i < |log| && i in StoredSet(backend, log) && log[i] == e;
      assert Key(log[i]) in backend;
    }
    if i :| 0 <= i < |log| && Key(log[i]) in backend && log[i] == e {
      assert i in StoredSet(backend, log);
    }
  }

  /** The store a restart yields. */
  function Revived(s: Store, log: seq<Event>): Store {
    var stored := StoredEvents(s.backend, log);
    Store(s.backend, IndexOf(stored), LastRevision(stored), 0, s.applied)
  }

  /** A restart always succeeds, and then nothing is left over: the store represents what is stored. */
  lemma RestartRepresents(s: Store, log: seq<Event>, w: nat)
    requires Tracks(s, log, w)
    ensures Represents(Revived(s, log), StoredEvents(s.backend, log))
    ensures OpenOf(s.backend) == Ok(Revived(s, log))
  {
    var stored, r := StoredEvents(s.backend, log), Revived(s, log);
    SelectWritten(log, StoredSet(s.backend, log), |log|);
    RisingIsOrdered(stored);
    TrimAtZero(stored);
    forall j | 0 <= j < |stored| ensures Key(stored[j]) in s.backend && s.backend[Key(stored[j])] == Value(stored[j]) {
      StoredMembers(s.backend, log, stored[j]);
      var i :| 0 <= i < |log| && Key(log[i]) in s.backend && log[i] == stored[j];
    }
    forall k | k in s.backend && k != APPLIED_KEY ensures IsRecordOf(stored, 0, k) {
      assert IsKeyOf(log, k);
      var i :| 0 <= i < |log| && k == Key(log[i]);
      StoredMembers(s.backend, log, log[i]);
      var j :| 0 <= j < |stored| && stored[j] == log[i];
      EverythingSurvivesAtZero(stored, j);
    }
    assert Represents(r, stored);
    ReopenIsIdentity(r, stored);
  }
}
