/**
 What a store holds at every point of a run, stated against the log of all events
 it ever applied: the index is that log's, compacted at the watermark, and the
 backend holds exactly the records compaction has not dropped.
 */
module StoreInvariant {
  import opened Wrappers
  import opened Sequences
  import opened ByteStrings
  import opened Revisions
  import opened Mutations
  import opened StoredRecord
  import opened OrderedScan
  import opened Histories
  import opened Indexes
  import opened Stores

  /** A log the store could have written: rising valid revisions past zero, storable keys. */
  ghost predicate Written(log: seq<Event>) {
    && Rising(log)
    && forall i :: 0 <= i < |log| ==> log[i].rev.Valid() && 0 < log[i].rev.main && |log[i].m.key| < U32_END
  }

  /** A deletion that found its key already absent; the index never records it. */
  predicate AbsentDelete(log: seq<Event>, i: nat)
    requires i < |log|
  {
    log[i].m.Delete? && !Open(HistoryOf(log[..i], log[i].m.key))
  }

  /** Whether compaction at `w` leaves the i-th event's record in the backend. */
  predicate Survives(log: seq<Event>, i: nat, w: nat)
    requires i < |log|
  {
    log[i].rev in AllRevs(Trim(HistoryOf(log, log[i].m.key), w)) || AbsentDelete(log, i)
  }

  /** Every surviving event's record is stored. */
  ghost predicate HoldsAll(backend: Map, log: seq<Event>, w: nat)
    requires Written(log)
  {
    forall i :: 0 <= i < |log| && Survives(log, i, w) ==>
      Key(log[i]) in backend && backend[Key(log[i])] == Value(log[i])
  }

  ghost predicate IsRecordOf(log: seq<Event>, w: nat, k: bytes)
    requires Written(log)
  {
    exists i :: 0 <= i < |log| && Survives(log, i, w) && k == Key(log[i])
  }

  /** Nothing else is stored but the applied-position marker. */
  ghost predicate HoldsOnly(backend: Map, log: seq<Event>, w: nat)
    requires Written(log)
  {
    forall k :: k in backend && k != APPLIED_KEY ==> IsRecordOf(log, w, k)
  }

  /** Enough to answer reads at or after `w`. */
  ghost predicate Readable(s: Store, log: seq<Event>, w: nat) {
    && Written(log)
    && s.index == TrimIndex(IndexOf(log), w)
    && HoldsAll(s.backend, log, w)
  }

  /** Index and records agree with the log, and nothing else is stored. */
  ghost predicate Agrees(s: Store, log: seq<Event>) {
    Readable(s, log, s.compacted) && HoldsOnly(s.backend, log, s.compacted)
  }

  ghost predicate Represents(s: Store, log: seq<Event>) {
    && Agrees(s, log)
    && s.current == LastRevision(log)
    && s.compacted <= s.current.main
    && s.applied < U64_END
    && AppliedIn(s.backend) == Ok(s.applied)
  }

  // ---- Facts about logs ---------------------------------------------------------

  lemma RisingIsOrdered(log: seq<Event>)
    requires Rising(log)
    ensures Ordered(log)
  {
    forall i, j | 0 <= i < j < |log| ensures log[i].rev.main <= log[j].rev.main {
      assert log[i].rev.Before(log[j].rev);
    }
  }

  lemma WrittenFront(log: seq<Event>)
    requires Written(log) && log != []
    ensures Written(Front(log))
  {
  }

  lemma KeyIsInjective(a: Event, b: Event)
    requires a.rev.Valid() && b.rev.Valid()
    ensures Key(a) == Key(b) <==> a.rev == b.rev && a.m.Delete? == b.m.Delete?
    ensures Key(a) != APPLIED_KEY && [REVISION_PREFIX] <= Key(a)
  {
    KeyRoundTrip(a.rev, a.m.Delete?, Key(a));
    KeyRoundTrip(b.rev, b.m.Delete?, Key(b));
  }

  /** The revisions a key's history holds are those of its recorded events. */
  lemma {:induction false} RevsOfHistory(log: seq<Event>, key: bytes, i: nat)
    requires Rising(log) && i < |log| && log[i].m.key == key
    ensures log[i].rev in AllRevs(HistoryOf(log, key)) <==> !AbsentDelete(log, i)
  {
    var e, front := Last(log), Front(log);
    var h := HistoryOf(front, key);
    if i < |front| {
      RevsOfHistory(front, key, i);
      assert front[..i] == log[..i] && front[i] == log[i];
      assert log[i].rev.Before(e.rev);
    } else {
      assert log[..i] == front;
      LaterIsNew(front, key, e.rev);
    }
    if e.m.key == key { RecordAddsRevision(h, e.m, e.rev); }
  }

  lemma RecordAddsRevision(h: History, m: Mutation, r: Revision)
    ensures AllRevs(Record(h, m, r)) == AllRevs(h) + if m.Put? || Open(h) then multiset{r} else multiset{}
  {
    if Open(h) {
      Snoc(Front(h), Pushed(Last(h), r, m.Delete?));
    } else {
      Snoc(h, Generation(r, 1, [r], false));
    }
  }

  lemma {:induction false} RevsComeFromLog(log: seq<Event>, key: bytes)
    ensures forall r :: r in AllRevs(HistoryOf(log, key)) ==>
              exists i :: 0 <= i < |log| && log[i].rev == r && log[i].m.key == key
  {
    hide AllRevs, Record;
    if log == [] {
      NoRevisionsYet(key);
    } else {
      var e, front := Last(log), Front(log);
      RevsComeFromLog(front, key);
      RecordAddsRevision(HistoryOf(front, key), e.m, e.rev);
      forall r | r in AllRevs(HistoryOf(log, key))
        ensures exists i :: 0 <= i < |log| && log[i].rev == r && log[i].m.key == key
      {
        if r in AllRevs(HistoryOf(front, key)) {
          var i :| 0 <= i < |front| && front[i].rev == r && front[i].m.key == key;
          assert log[i] == front[i];
        } else {
          assert log[|front|] == e;
        }
      }
    }
  }

  lemma NoRevisionsYet(key: bytes)
    ensures AllRevs(HistoryOf([], key)) == multiset{}
  {
  }

  lemma LaterIsNew(log: seq<Event>, key: bytes, r: Revision)
    requires forall i :: 0 <= i < |log| ==> log[i].rev.Before(r)
    ensures r !in AllRevs(HistoryOf(log, key))
  {
    RevsComeFromLog(log, key);
  }

  /** No revision appears twice in a history. */
  lemma {:induction false} RevsDistinct(log: seq<Event>, key: bytes, r: Revision)
    requires Rising(log)
    ensures AllRevs(HistoryOf(log, key))[r] <= 1
  {
    if log != [] {
      var e, front := Last(log), Front(log);
      RevsDistinct(front, key, r);
      LaterIsNew(front, key, e.rev);
      RecordAddsRevision(HistoryOf(front, key), e.m, e.rev);
    }
  }

  /** A revision names one event of the log. */
  lemma RevisionNamesEvent(log: seq<Event>, i: nat, j: nat)
    requires Rising(log) && i < |log| && j < |log| && log[i].rev == log[j].rev
    ensures i == j
  {
    assert i < j ==> log[i].rev.Before(log[j].rev);
    assert j < i ==> log[j].rev.Before(log[i].rev);
  }

  // ---- Applying keeps the invariant ------------------------------------------------

  ghost predicate Extends(log: seq<Event>, e: Event, w: nat) {
    && Written(log + [e])
    && w < e.rev.main
  }

  /** What one more event does to the revisions compaction at `w` leaves of a history. */
  lemma TrimmedRevisions(log: seq<Event>, e: Event, w: nat, key: bytes)
    requires Extends(log, e, w)
    ensures var h := HistoryOf(log, key);
            AllRevs(Trim(HistoryOf(log + [e], key), w)) ==
            AllRevs(Trim(h, w)) + if e.m.key == key && (e.m.Put? || Open(h)) then multiset{e.rev} else multiset{}
  {
    var all, h := log + [e], HistoryOf(log, key);
    Snoc(log, e);
    RisingIsOrdered(all);
    assert forall j :: 0 <= j < |log| ==> log[j] == all[j];
    assert log != [] ==> all[|log| - 1].rev.main <= all[|log|].rev.main;
    HistoryValid(log, key, e.rev.main);
    if e.m.key == key {
      TrimCommutesWithWrites(h, w, e.rev);
      TrimValid(h, w);
      RecordAddsRevision(Trim(h, w), e.m, e.rev);
    }
  }

  /** One more event leaves every earlier survival as it was, and survives itself. */
  lemma SurvivalIsStable(log: seq<Event>, e: Event, w: nat, i: nat)
    requires Extends(log, e, w) && i <= |log|
    ensures Survives(log + [e], i, w) <==> (i == |log| || Survives(log, i, w))
  {
    var all := log + [e];
    TrimmedRevisions(log, e, w, all[i].m.key);
    assert all[..i] == log[..i];
    if i < |log| {
      assert all[i].rev.Before(all[|log|].rev);
      assert all[i] == log[i];
    } else {
      assert log[..|log|] == log;
    }
  }

  lemma RecordJoins(backend: Map, log: seq<Event>, e: Event, w: nat)
    requires e.rev.Valid() && Extends(log, e, w) && Written(log) && HoldsAll(backend, log, w)
    ensures HoldsAll(backend[Key(e) := Value(e)], log + [e], w)
  {
    var all, next := log + [e], backend[Key(e) := Value(e)];
    forall i | 0 <= i < |all| && Survives(all, i, w)
      ensures Key(all[i]) in next && next[Key(all[i])] == Value(all[i])
    {
      SurvivalIsStable(log, e, w, i);
      KeyIsInjective(all[i], e);
      if i < |log| { assert all[i].rev.Before(all[|log|].rev); }
    }
  }

  lemma NothingElseJoins(backend: Map, log: seq<Event>, e: Event, w: nat)
    requires e.rev.Valid() && Extends(log, e, w) && Written(log) && HoldsOnly(backend, log, w)
    ensures HoldsOnly(backend[Key(e) := Value(e)], log + [e], w)
  {
    var all := log + [e];
    forall k | (k in backend || k == Key(e)) && k != APPLIED_KEY ensures IsRecordOf(all, w, k) {
      if k == Key(e) {
        SurvivalIsStable(log, e, w, |log|);
        assert all[|log|] == e;
      } else {
        assert IsRecordOf(log, w, k);
        var i :| 0 <= i < |log| && Survives(log, i, w) && k == Key(log[i]);
        SurvivalIsStable(log, e, w, i);
        assert all[i] == log[i];
      }
    }
  }

  lemma IndexJoins(log: seq<Event>, e: Event, w: nat)
    requires Written(log) && Extends(log, e, w)
    ensures IndexRecord(TrimIndex(IndexOf(log), w), e.m, e.rev) == TrimIndex(IndexOf(log + [e]), w)
  {
    var main := LastRevision(log).main;
    Snoc(log, e);
    RisingIsOrdered(log);
    assert log != [] ==> (log + [e])[|log| - 1].rev.Before((log + [e])[|log|].rev);
    IndexOfValid(log, main);
    TrimIndexCommutes(IndexOf(log), w, e.m, e.rev, main);
  }

  lemma ApplyOne(s: Store, log: seq<Event>, e: Event)
    requires Agrees(s, log)
    requires e.rev.Valid() && Extends(log, e, s.compacted)
    ensures Agrees(s.(backend := s.backend[Key(e) := Value(e)], index := IndexRecord(s.index, e.m, e.rev)), log + [e])
  {
    IndexJoins(log, e, s.compacted);
    RecordJoins(s.backend, log, e, s.compacted);
    NothingElseJoins(s.backend, log, e, s.compacted);
  }

  ghost predicate Storable(batch: seq<Mutation>) {
    forall i :: 0 <= i < |batch| ==> |batch[i].key| < U32_END
  }

  lemma EventsExtend(log: seq<Event>, batch: seq<Mutation>)
    requires Written(log) && Storable(batch)
    requires LastRevision(log).main + |batch| <= I64_MAX
    ensures Written(log + EventsAfter(LastRevision(log), batch))
    ensures ValidRevisions(EventsAfter(LastRevision(log), batch))
  {
    var current := LastRevision(log);
    var all := log + EventsAfter(current, batch);
    forall i, j | 0 <= i < j < |all| ensures all[i].rev.Before(all[j].rev) {
      if i < |log| <= j {
        assert i == |log| - 1 || log[i].rev.Before(log[|log| - 1].rev);
      }
    }
  }

  /** The store with events recorded, counters not yet moved. */
  function WithEvents(s: Store, events: seq<Event>): Store
    requires ValidRevisions(events)
  {
    s.(backend := WithRecords(s.backend, events), index := Recorded(s.index, events))
  }

  lemma {:induction false} EventsKeepAgreement(s: Store, log: seq<Event>, events: seq<Event>)
    requires Agrees(s, log) && s.compacted <= LastRevision(log).main
    requires Written(log + events) && ValidRevisions(events)
    requires forall i :: 0 <= i < |events| ==> s.compacted < events[i].rev.main
    ensures Agrees(WithEvents(s, events), log + events)
    ensures AppliedIn(WithEvents(s, events).backend) == AppliedIn(s.backend)
  {
    hide Agrees;
    if events == [] {
      assert log + events == log;
    } else {
      var front, e := Front(events), Last(events);
      assert log + events == (log + front) + [e];
      WrittenFront(log + events);
      assert Front(log + events) == log + front;
      EventsKeepAgreement(s, log, front);
      ApplyOne(WithEvents(s, front), log + front, e);
      KeyIsInjective(e, e);
    }
  }

  /** Applying a batch extends the log by the events it became. */
  lemma ApplyKeepsInvariant(s: Store, log: seq<Event>, batch: seq<Mutation>, upto: nat)
    requires Represents(s, log) && Storable(batch)
    requires s.current.main + |batch| <= I64_MAX && upto < U64_END
    ensures Represents(ApplyTo(s, batch, upto), log + EventsAfter(s.current, batch))
  {
    var events := EventsAfter(s.current, batch);
    var all := log + events;
    EventsExtend(log, batch);
    EventsKeepAgreement(s, log, events);
    MarkerChangesNothing(WithRecords(s.backend, events), all, s.compacted, upto);
    if events == [] { assert all == log; }
    assert ApplyTo(s, batch, upto).current == LastRevision(all);
  }

  lemma MarkerChangesNothing(backend: Map, log: seq<Event>, w: nat, n: nat)
    requires Written(log) && n < U64_END && HoldsAll(backend, log, w) && HoldsOnly(backend, log, w)
    ensures var next := backend[APPLIED_KEY := EncodePosition(n)];
            HoldsAll(next, log, w) && HoldsOnly(next, log, w) && AppliedIn(next) == Ok(n)
  {
    PositionRoundTrip(n);
    forall i | 0 <= i < |log| ensures Key(log[i]) != APPLIED_KEY { KeyIsInjective(log[i], log[i]); }
  }

  lemma CheckpointKeepsInvariant(s: Store, log: seq<Event>)
    requires Represents(s, log)
    ensures Represents(CheckpointOf(s), log)
  {
    MarkerChangesNothing(s.backend, log, s.compacted, s.applied);
  }

  /** A new store represents the empty log. */
  lemma EmptyRepresents()
    ensures Represents(Store(map[], map[], ZERO, 0, 0), [])
  {
    assert TrimIndex(map[], 0) == map[];
  }
}
