/** Compaction of the store: what it removes, what it keeps, and what it reports. */
module StoreCompaction {
  import opened Wrappers
  import opened Sequences
  import opened ByteStrings
  import opened Revisions
  import opened Mutations
  import opened StoredRecord
  import opened OrderedScan
  import opened Histories
  import opened Indexes
  import opened Stores
  import opened StoreInvariant

  ghost predicate AllValid(revs: seq<Revision>) {
    forall i :: 0 <= i < |revs| ==> revs[i].Valid()
  }

  lemma {:induction false} RemovedKeys(backend: Map, revs: seq<Revision>, k: bytes)
    requires AllValid(revs)
    ensures k in WithoutRecords(backend, revs) <==>
            k in backend && forall i :: 0 <= i < |revs| ==>
              k != BackendKey(revs[i], false) && k != BackendKey(revs[i], true)
    ensures k in WithoutRecords(backend, revs) ==> WithoutRecords(backend, revs)[k] == backend[k]
  {
    if revs != [] {
      RemovedKeys(backend, Front(revs), k);
    }
  }

  lemma {:induction false} DroppedBelongs(idx: IndexMap, keys: seq<bytes>, at: nat, r: Revision)
    ensures r in DroppedFrom(idx, keys, at) <==> exists i :: 0 <= i < |keys| && r in Dropped(Lookup(idx, keys[i]), at)
  {
    if keys != [] {
      DroppedBelongs(idx, Front(keys), at, r);
      assert keys[|keys| - 1] == Last(keys);
      forall i | 0 <= i < |Front(keys)| ensures Front(keys)[i] == keys[i] {}
      if r in DroppedFrom(idx, Front(keys), at) {
        var i :| 0 <= i < |Front(keys)| && r in Dropped(Lookup(idx, Front(keys)[i]), at);
        assert r in Dropped(Lookup(idx, keys[i]), at);
      }
    }
  }

  /** What a key's history at `w` drops and keeps when compacted further, at `c`. */
  lemma HistorySplits(log: seq<Event>, key: bytes, w: nat, c: nat, r: Revision)
    requires Written(log) && w <= c
    ensures var t := Trim(HistoryOf(log, key), w);
            && Trim(t, c) == Trim(HistoryOf(log, key), c)
            && !(r in Dropped(t, c) && r in AllRevs(Trim(t, c)))
            && (r in AllRevs(t) <==> r in Dropped(t, c) || r in AllRevs(Trim(t, c)))
            && (r in AllRevs(t) ==> r in AllRevs(HistoryOf(log, key)))
  {
    var h := HistoryOf(log, key);
    var t := Trim(h, w);
    RisingIsOrdered(log);
    HistoryValid(log, key, LastRevision(log).main);
    TrimTwice(h, w, c);
    DroppedComplementsTrim(h, w);
    DroppedComplementsTrim(t, c);
    RevsDistinct(log, key, r);
    assert AllRevs(h)[r] == multiset(Dropped(h, w))[r] + AllRevs(t)[r];
    assert AllRevs(t)[r] == multiset(Dropped(t, c))[r] + AllRevs(Trim(t, c))[r];
    InMultiset(Dropped(t, c), r);
  }

  lemma InMultiset<T>(s: seq<T>, x: T)
    ensures x in s <==> multiset(s)[x] > 0
  {
  }

  /** The histories of the index a log leaves, compacted at `w`. */
  lemma IndexHistories(log: seq<Event>, w: nat)
    requires Written(log)
    ensures forall k :: Lookup(TrimIndex(IndexOf(log), w), k) == Trim(HistoryOf(log, k), w)
  {
    RisingIsOrdered(log);
    IndexIsHistories(log);
    IndexOfValid(log, LastRevision(log).main);
    TrimIndexValid(IndexOf(log), w, LastRevision(log).main);
  }

  /** An event's revision is dropped exactly when its record survived `w` but not `c`. */
  lemma DroppedIsNoLongerSurviving(log: seq<Event>, w: nat, c: nat, i: nat)
    requires Written(log) && w <= c && i < |log|
    ensures log[i].rev in DroppedAt(TrimIndex(IndexOf(log), w), c) <==> Survives(log, i, w) && !Survives(log, i, c)
    ensures Survives(log, i, c) ==> Survives(log, i, w)
  {
    var idx := TrimIndex(IndexOf(log), w);
    var keys := Sorted(idx.Keys);
    var r, key := log[i].rev, log[i].m.key;
    IndexHistories(log, w);
    DroppedBelongs(idx, keys, c, r);
    HistorySplits(log, key, w, c, r);
    RevsOfHistory(log, key, i);
    if r in DroppedFrom(idx, keys, c) {
      var j :| 0 <= j < |keys| && r in Dropped(Lookup(idx, keys[j]), c);
      HistorySplits(log, keys[j], w, c, r);
      RevsComeFromLog(log, keys[j]);
      var m :| 0 <= m < |log| && log[m].rev == r && log[m].m.key == keys[j];
      RevisionNamesEvent(log, i, m);
    }
    if Survives(log, i, w) && !Survives(log, i, c) {
      assert key in idx;
      assert key in keys;
      var j :| 0 <= j < |keys| && keys[j] == key;
      assert r in Dropped(Lookup(idx, keys[j]), c);
    }
  }

  /** Every dropped revision is that of some event. */
  lemma DroppedComesFromLog(log: seq<Event>, w: nat, c: nat, r: Revision)
    requires Written(log) && w <= c && r in DroppedAt(TrimIndex(IndexOf(log), w), c)
    ensures exists i :: 0 <= i < |log| && log[i].rev == r
  {
    var idx := TrimIndex(IndexOf(log), w);
    var keys := Sorted(idx.Keys);
    IndexHistories(log, w);
    DroppedBelongs(idx, keys, c, r);
    var j :| 0 <= j < |keys| && r in Dropped(Lookup(idx, keys[j]), c);
    HistorySplits(log, keys[j], w, c, r);
    RevsComeFromLog(log, keys[j]);
  }

  lemma DroppedAllValid(log: seq<Event>, w: nat, c: nat)
    requires Written(log) && w <= c
    ensures AllValid(DroppedAt(TrimIndex(IndexOf(log), w), c))
  {
    var dropped := DroppedAt(TrimIndex(IndexOf(log), w), c);
    forall i | 0 <= i < |dropped| ensures dropped[i].Valid() {
      DroppedComesFromLog(log, w, c, dropped[i]);
      var j :| 0 <= j < |log| && log[j].rev == dropped[i];
    }
  }

  /** A revision dropped from some of the keys is dropped from no other key. */
  lemma DroppedFromOneKey(log: seq<Event>, w: nat, c: nat, keys: seq<bytes>, key: bytes, r: Revision)
    requires Written(log) && w <= c
    requires r in DroppedFrom(TrimIndex(IndexOf(log), w), keys, c)
    requires r in Dropped(Trim(HistoryOf(log, key), w), c)
    ensures key in keys
  {
    IndexHistories(log, w);
    DroppedBelongs(TrimIndex(IndexOf(log), w), keys, c, r);
    var j :| 0 <= j < |keys| && r in Dropped(Lookup(TrimIndex(IndexOf(log), w), keys[j]), c);
    HistorySplits(log, keys[j], w, c, r);
    HistorySplits(log, key, w, c, r);
    RevsComeFromLog(log, keys[j]);
    RevsComeFromLog(log, key);
    var a :| 0 <= a < |log| && log[a].rev == r && log[a].m.key == keys[j];
    var b :| 0 <= b < |log| && log[b].rev == r && log[b].m.key == key;
    RevisionNamesEvent(log, a, b);
  }

  lemma DroppedOnce(log: seq<Event>, key: bytes, w: nat, c: nat, r: Revision)
    requires Written(log)
    ensures multiset(Dropped(Trim(HistoryOf(log, key), w), c))[r] <= 1
  {
    var h := HistoryOf(log, key);
    RevsDistinct(log, key, r);
    DroppedComplementsTrim(h, w);
    DroppedComplementsTrim(Trim(h, w), c);
    assert AllRevs(h)[r] == multiset(Dropped(h, w))[r] + AllRevs(Trim(h, w))[r];
  }

  lemma {:induction false} DroppedDistinct(log: seq<Event>, w: nat, c: nat, keys: seq<bytes>, r: Revision)
    requires Written(log) && w <= c && Ascending(keys)
    ensures multiset(DroppedFrom(TrimIndex(IndexOf(log), w), keys, c))[r] <= 1
  {
    hide IndexOf, TrimIndex, HistoryOf, Trim, Dropped, Lookup;
    var idx := TrimIndex(IndexOf(log), w);
    if keys != [] {
      var front, key := Front(keys), Last(keys);
      DroppedDistinct(log, w, c, front, r);
      DroppedOnce(log, key, w, c, r);
      IndexHistories(log, w);
      NotYetListed(keys, |front|);
      var before, here := DroppedFrom(idx, front, c), Dropped(Lookup(idx, key), c);
      InMultiset(before, r);
      InMultiset(here, r);
      assert !(r in before && r in here) by {
        if r in before && r in here { DroppedFromOneKey(log, w, c, front, key, r); }
      }
      assert multiset(before + here)[r] == multiset(before)[r] + multiset(here)[r];
    }
  }

  // ---- What is left ----------------------------------------------------------------

  /** The store while compaction at `c` has removed the first `n` dropped records. */
  function CompactedPartly(s: Store, c: nat, n: nat): Store
    requires n <= |DroppedAt(s.index, c)| && forall i :: 0 <= i < n ==> DroppedAt(s.index, c)[i].Valid()
  {
    s.(backend := WithoutRecords(s.backend, DroppedAt(s.index, c)[..n]), index := TrimIndex(s.index, c))
  }

  /** The store once compaction at `c` is done. */
  function CompactedTo(s: Store, c: nat): Store
    requires forall i :: 0 <= i < |DroppedAt(s.index, c)| ==> DroppedAt(s.index, c)[i].Valid()
  {
    CompactedPartly(s, c, |DroppedAt(s.index, c)|).(compacted := c)
  }

  /** Removing dropped records leaves every record that survives the compaction. */
  lemma SurvivorStays(log: seq<Event>, w: nat, c: nat, revs: seq<Revision>, i: nat, backend: Map)
    requires Written(log) && w <= c && i < |log| && Survives(log, i, c) && AllValid(revs)
    requires forall j :: 0 <= j < |revs| ==> revs[j] in DroppedAt(TrimIndex(IndexOf(log), w), c)
    ensures Survives(log, i, w)
    ensures Key(log[i]) in WithoutRecords(backend, revs) <==> Key(log[i]) in backend
  {
    var k := Key(log[i]);
    DroppedIsNoLongerSurviving(log, w, c, i);
    RemovedKeys(backend, revs, k);
    KeyRoundTrip(log[i].rev, log[i].m.Delete?, k);
    forall j | 0 <= j < |revs| ensures k != BackendKey(revs[j], false) && k != BackendKey(revs[j], true) {
      KeyRoundTrip(revs[j], false, k);
      KeyRoundTrip(revs[j], true, k);
    }
  }

  lemma IndexCompacts(s: Store, log: seq<Event>, c: nat)
    requires Represents(s, log) && s.compacted <= c
    ensures TrimIndex(s.index, c) == TrimIndex(IndexOf(log), c)
    ensures AllValid(DroppedAt(s.index, c))
  {
    RisingIsOrdered(log);
    IndexOfValid(log, LastRevision(log).main);
    TrimIndexTwice(IndexOf(log), s.compacted, c, LastRevision(log).main);
    DroppedAllValid(log, s.compacted, c);
  }

  /** However far the removal got, reads at or after the compaction point are unaffected. */
  lemma PartialCompactionKeepsReads(s: Store, log: seq<Event>, w: nat, c: nat, n: nat)
    requires Readable(s, log, w) && w <= c && n <= |DroppedAt(s.index, c)|
    ensures AllValid(DroppedAt(s.index, c))
    ensures Readable(CompactedPartly(s, c, n), log, c)
  {
    hide DroppedAt, TrimIndex, IndexOf, HoldsAll;
    RisingIsOrdered(log);
    IndexOfValid(log, LastRevision(log).main);
    TrimIndexTwice(IndexOf(log), w, c, LastRevision(log).main);
    DroppedAllValid(log, w, c);
    SurvivorsStay(s.backend, log, w, c, DroppedAt(s.index, c)[..n]);
  }

  lemma SurvivorsStay(backend: Map, log: seq<Event>, w: nat, c: nat, revs: seq<Revision>)
    requires Written(log) && w <= c && AllValid(revs) && HoldsAll(backend, log, w)
    requires forall j :: 0 <= j < |revs| ==> revs[j] in DroppedAt(TrimIndex(IndexOf(log), w), c)
    ensures HoldsAll(WithoutRecords(backend, revs), log, c)
  {
    hide DroppedAt, TrimIndex, IndexOf, Survives;
    forall i | 0 <= i < |log| && Survives(log, i, c)
      ensures Key(log[i]) in WithoutRecords(backend, revs)
      ensures WithoutRecords(backend, revs)[Key(log[i])] == Value(log[i])
    {
      SurvivorStays(log, w, c, revs, i, backend);
      RemovedKeys(backend, revs, Key(log[i]));
    }
  }

  /**
   A compaction the backend failed leaves the watermark, and with it the reads it admits,
   where they were: one before the point reads the key as replay does, unless replay finds
   the key there and it reads differently by the point: then it reads as absent.
   */
  lemma PartialCompactionMisreads(s: Store, log: seq<Event>, c: nat, n: nat, key: bytes, at: nat)
    requires Represents(s, log) && CompactRefusal(s, c) == None && n <= |DroppedAt(s.index, c)|
    requires s.compacted <= at <= c
    ensures AllValid(DroppedAt(s.index, c))
    ensures var after := CompactedPartly(s, c, n);
            var past, later := Metadata(Replay(log, key, at)), Metadata(Replay(log, key, c));
            && Resolve(after, Some(at)) == Ok(at)
            && At(Lookup(after.index, key), at) == if past == later then past else None
  {
    hide Replay, Metadata, HistoryOf, Trim, At;
    var h := HistoryOf(log, key);
    IndexCompacts(s, log, c);
    RisingIsOrdered(log);
    HistoryValid(log, key, LastRevision(log).main);
    ReadIsReplay(log, key, at);
    ReadIsReplay(log, key, c);
    ReadsBeforePoint(h, c, at);
    IndexHistories(log, c);
  }

  /** A record the completed compaction left is that of a surviving event. */
  lemma LeftoverSurvives(s: Store, log: seq<Event>, c: nat, k: bytes)
    requires Represents(s, log) && s.compacted <= c && AllValid(DroppedAt(s.index, c))
    requires k in WithoutRecords(s.backend, DroppedAt(s.index, c)) && k != APPLIED_KEY
    ensures IsRecordOf(log, c, k)
  {
    var w, dropped := s.compacted, DroppedAt(s.index, c);
    RemovedKeys(s.backend, dropped, k);
    assert IsRecordOf(log, w, k);
    var i :| 0 <= i < |log| && Survives(log, i, w) && k == Key(log[i]);
    assert log[i].rev !in dropped;
    DroppedIsNoLongerSurviving(log, w, c, i);
  }

  /** Compaction leaves exactly the surviving records, so the store still represents its log. */
  lemma CompactKeepsInvariant(s: Store, log: seq<Event>, c: nat)
    requires Represents(s, log) && CompactRefusal(s, c) == None
    ensures AllValid(DroppedAt(s.index, c))
    ensures Represents(CompactedTo(s, c), log)
  {
    var dropped := DroppedAt(s.index, c);
    PartialCompactionKeepsReads(s, log, s.compacted, c, |dropped|);
    assert dropped[..|dropped|] == dropped;
    var backend := CompactedTo(s, c).backend;
    forall k | k in backend && k != APPLIED_KEY ensures IsRecordOf(log, c, k) {
      LeftoverSurvives(s, log, c, k);
    }
    RemovedKeys(s.backend, dropped, APPLIED_KEY);
  }

  // ---- The reported count ---------------------------------------------------------

  ghost predicate Distinct(revs: seq<Revision>) {
    forall r :: multiset(revs)[r] <= 1
  }

  ghost predicate IsSurvivor(log: seq<Event>, w: nat, r: Revision) {
    exists j :: 0 <= j < |log| && log[j].rev == r && Survives(log, j, w)
  }

  /** One of the two keys a revision could be stored under is present, the other is not. */
  ghost predicate StoredOnce(backend: Map, r: Revision) {
    r.Valid() && (BackendKey(r, true) in backend <==> BackendKey(r, false) !in backend)
  }

  lemma {:induction false} RemovalCounts(backend: Map, revs: seq<Revision>)
    requires AllValid(revs) && Distinct(revs)
    requires forall i :: 0 <= i < |revs| ==> StoredOnce(backend, revs[i])
    ensures |WithoutRecords(backend, revs)| == |backend| - |revs|
  {
    if revs != [] {
      DistinctFront(revs);
      assert StoredOnce(backend, revs[|revs| - 1]);
      RemovalCounts(backend, Front(revs));
      OneRecordEach(backend, Front(revs), Last(revs));
    }
  }

  lemma OtherKeysStay(backend: Map, before: seq<Revision>, r: Revision, kind: bool)
    requires AllValid(before) && r.Valid() && r !in before
    ensures BackendKey(r, kind) in WithoutRecords(backend, before) <==> BackendKey(r, kind) in backend
  {
    var k := BackendKey(r, kind);
    RemovedKeys(backend, before, k);
    KeyRoundTrip(r, kind, k);
    forall i | 0 <= i < |before| ensures k != BackendKey(before[i], false) && k != BackendKey(before[i], true) {
      KeyRoundTrip(before[i], false, k);
      KeyRoundTrip(before[i], true, k);
    }
  }

  lemma OneKeyGoes(m: Map, k: bytes, other: bytes)
    requires k in m && other !in m
    ensures |m - {k, other}| == |m| - 1
  {
    assert (m - {k, other}).Keys == m.Keys - {k};
  }

  /** Removing both possible keys of a stored revision removes exactly one record. */
  lemma OneRecordEach(backend: Map, before: seq<Revision>, r: Revision)
    requires AllValid(before) && r !in before && StoredOnce(backend, r)
    ensures var b := WithoutRecords(backend, before);
            |b - {BackendKey(r, false), BackendKey(r, true)}| == |b| - 1
  {
    var b, p, t := WithoutRecords(backend, before), BackendKey(r, false), BackendKey(r, true);
    OtherKeysStay(backend, before, r, false);
    OtherKeysStay(backend, before, r, true);
    if p in b {
      OneKeyGoes(b, p, t);
    } else {
      OneKeyGoes(b, t, p);
      assert {p, t} == {t, p};
    }
  }

  lemma DistinctFront(revs: seq<Revision>)
    requires Distinct(revs) && revs != []
    ensures Distinct(Front(revs)) && Last(revs) !in Front(revs)
  {
    var front, r := Front(revs), Last(revs);
    assert revs == front + [r];
    forall x ensures multiset(front)[x] <= 1 { assert multiset(revs)[x] <= 1; }
    assert multiset(revs)[r] <= 1;
    InMultiset(front, r);
  }

  /** An event's record is stored under its own kind of key only. */
  lemma StoredUnderOneKind(s: Store, log: seq<Event>, j: nat)
    requires Represents(s, log) && j < |log|
    ensures BackendKey(log[j].rev, !log[j].m.Delete?) !in s.backend
  {
    var other := BackendKey(log[j].rev, !log[j].m.Delete?);
    KeyRoundTrip(log[j].rev, !log[j].m.Delete?, other);
    forall m | 0 <= m < |log| ensures other != Key(log[m]) {
      KeyRoundTrip(log[m].rev, log[m].m.Delete?, other);
      if log[m].rev == log[j].rev { RevisionNamesEvent(log, j, m); }
    }
    assert other in s.backend ==> IsRecordOf(log, s.compacted, other);
  }

  lemma SurvivorStoredOnce(s: Store, log: seq<Event>, r: Revision)
    requires Represents(s, log) && IsSurvivor(log, s.compacted, r)
    ensures StoredOnce(s.backend, r)
  {
    var j :| 0 <= j < |log| && log[j].rev == r && Survives(log, j, s.compacted);
    StoredUnderOneKind(s, log, j);
  }

  lemma DroppedIsStored(log: seq<Event>, w: nat, c: nat, r: Revision)
    requires Written(log) && w <= c && r in DroppedAt(TrimIndex(IndexOf(log), w), c)
    ensures IsSurvivor(log, w, r)
  {
    DroppedComesFromLog(log, w, c, r);
    var j :| 0 <= j < |log| && log[j].rev == r;
    DroppedIsNoLongerSurviving(log, w, c, j);
  }

  lemma DroppedAtDistinct(log: seq<Event>, w: nat, c: nat)
    requires Written(log) && w <= c
    ensures Distinct(DroppedAt(TrimIndex(IndexOf(log), w), c))
  {
    var idx := TrimIndex(IndexOf(log), w);
    SortedAscends(idx.Keys);
    forall r ensures multiset(DroppedAt(idx, c))[r] <= 1 {
      DroppedDistinct(log, w, c, Sorted(idx.Keys), r);
    }
  }

  /** The count compaction reports is the number of records it removed. */
  lemma CompactionCount(s: Store, log: seq<Event>, c: nat)
    requires Represents(s, log) && CompactRefusal(s, c) == None
    ensures AllValid(DroppedAt(s.index, c))
    ensures |CompactedTo(s, c).backend| == |s.backend| - |DroppedAt(s.index, c)|
  {
    var dropped := DroppedAt(s.index, c);
    DroppedAllValid(log, s.compacted, c);
    DroppedAtDistinct(log, s.compacted, c);
    forall i | 0 <= i < |dropped| ensures StoredOnce(s.backend, dropped[i]) {
      DroppedIsStored(log, s.compacted, c, dropped[i]);
      SurvivorStoredOnce(s, log, dropped[i]);
    }
    RemovalCounts(s.backend, dropped);
    assert dropped[..|dropped|] == dropped;
  }

  lemma NothingDroppedTwice(log: seq<Event>, c: nat, r: Revision)
    requires Written(log)
    ensures r !in DroppedAt(TrimIndex(IndexOf(log), c), c)
  {
    if r in DroppedAt(TrimIndex(IndexOf(log), c), c) {
      DroppedComesFromLog(log, c, c, r);
      var j :| 0 <= j < |log| && log[j].rev == r;
      DroppedIsNoLongerSurviving(log, c, c, j);
    }
  }

  /** Compacting again at the same point drops nothing. */
  lemma RepeatDropsNothing(s: Store, log: seq<Event>, c: nat)
    requires Represents(s, log) && CompactRefusal(s, c) == None
    ensures DroppedAt(TrimIndex(s.index, c), c) == []
  {
    IndexCompacts(s, log, c);
    var again := DroppedAt(TrimIndex(IndexOf(log), c), c);
    if again != [] {
      NothingDroppedTwice(log, c, again[0]);
    }
  }
}
