/**
 What a restart makes of records left over by a failed history compaction: which reads come
 out wrong, and why most runs never see one.
 */
module StoreRestarts {
  import opened Wrappers
  import opened Sequences
  import opened ByteStrings
  import opened Revisions
  import opened Mutations
  import opened StoredRecord
  import opened OrderedScan
  import opened Histories
  import opened Indexes
  import opened Stores
  import opened StoreInvariant
  import opened StoreReads
  import opened StoreCompaction
  import opened StoreReopen
  import opened StoreLeftovers

  // ---- What a restart brings back -----------------------------------------------------------------

  /** The last event of a key at or before `at`. */
  function LastOf(log: seq<Event>, key: bytes, at: nat): Option<Event> {
    if log == [] then None
    else if Last(log).m.key == key && Last(log).rev.main <= at then Some(Last(log))
    else LastOf(Front(log), key, at)
  }

  predicate EndsInPut(log: seq<Event>, key: bytes, at: nat) {
    LastOf(log, key, at).Some? && LastOf(log, key, at).value.m.Put?
  }

  lemma {:induction false} ReplayIsLast(log: seq<Event>, key: bytes, at: nat)
    ensures Replay(log, key, at).Some? <==> EndsInPut(log, key, at)
    ensures Replay(log, key, at).Some? ==>
              var e, v := LastOf(log, key, at).value, Replay(log, key, at).value;
              v.modified == e.rev && Put(key, v.value) == e.m
  {
    if log != [] {
      ReplayIsLast(Front(log), key, at);
    }
  }

  lemma {:induction false} LastIsIn(log: seq<Event>, key: bytes, at: nat) returns (i: nat)
    requires LastOf(log, key, at).Some?
    ensures i < |log| && log[i] == LastOf(log, key, at).value && log[i].m.key == key && log[i].rev.main <= at
    ensures forall j :: i < j < |log| && log[j].m.key == key ==> log[j].rev.main > at
  {
    if Last(log).m.key == key && Last(log).rev.main <= at {
      i := |log| - 1;
    } else {
      i := LastIsIn(Front(log), key, at);
      forall j | i < j < |log| && log[j].m.key == key ensures log[j].rev.main > at {
        assert j < |log| - 1 ==> log[j] == Front(log)[j];
      }
    }
  }

  lemma {:induction false} LastIsNext(log: seq<Event>, key: bytes, at: nat, i: nat)
    requires i < |log| && log[i].m.key == key && log[i].rev.main <= at
    requires forall j :: i < j < |log| && log[j].m.key == key ==> log[j].rev.main > at
    ensures LastOf(log, key, at) == Some(log[i])
  {
    if i < |log| - 1 {
      assert log[|log| - 1] == Last(log);
      forall j | i < j < |Front(log)| && Front(log)[j].m.key == key ensures Front(log)[j].rev.main > at {
        assert Front(log)[j] == log[j];
      }
      LastIsNext(Front(log), key, at, i);
    }
  }

  /** Among selected events the last of a key is the last selected one. */
  lemma {:induction false} LastSelected(log: seq<Event>, keep: set<nat>, n: nat, key: bytes, at: nat, i: nat)
    requires i < n <= |log| && i in keep && log[i].m.key == key && log[i].rev.main <= at
    requires forall j :: i < j < n && j in keep && log[j].m.key == key ==> log[j].rev.main > at
    ensures LastOf(Select(log, keep, n), key, at) == Some(log[i])
  {
    var before := Select(log, keep, n - 1);
    if n - 1 in keep {
      Snoc(before, log[n - 1]);
    }
    if i < n - 1 {
      LastSelected(log, keep, n - 1, key, at, i);
      assert before + [] == before;
    }
  }

  lemma {:induction false} LastOfSelected(log: seq<Event>, keep: set<nat>, n: nat, key: bytes, at: nat) returns (i: nat)
    requires n <= |log| && LastOf(Select(log, keep, n), key, at).Some?
    ensures i < n && i in keep && log[i] == LastOf(Select(log, keep, n), key, at).value
    ensures log[i].m.key == key && log[i].rev.main <= at
    ensures forall j :: i < j < n && j in keep && log[j].m.key == key ==> log[j].rev.main > at
  {
    var before := Select(log, keep, n - 1);
    if n - 1 in keep {
      Snoc(before, log[n - 1]);
      if log[n - 1].m.key == key && log[n - 1].rev.main <= at {
        i := n - 1;
        return;
      }
    }
    assert before + [] == before;
    i := LastOfSelected(log, keep, n - 1, key, at);
  }

  /** A key present at or after `w` is still so after a restart. */
  lemma PresentStays(s: Store, log: seq<Event>, w: nat, key: bytes, at: nat)
    requires Tracks(s, log, w) && w <= at && Replay(log, key, at).Some?
    ensures SameReading(Replay(StoredEvents(s.backend, log), key, at), Replay(log, key, at))
  {
    hide Replay, Select, Tracks;
    TracksReads(s, log, w);
    var stored := StoredEvents(s.backend, log);
    ReplayIsLast(log, key, at);
    ReplayIsLast(stored, key, at);
    FoundIsStored(s, log, w, key, at);
    var i := LastIsIn(log, key, at);
    assert Key(log[i]) == BackendKey(log[i].rev, false);
    LastSelected(log, StoredSet(s.backend, log), |log|, key, at, i);
  }

  lemma TracksReads(s: Store, log: seq<Event>, w: nat)
    requires Tracks(s, log, w)
    ensures Readable(s, log, w)
  {
  }

  /** The key is gone by `at`, yet its last record still stored up to then is that of a put. */
  predicate Resurfaces(backend: Map, log: seq<Event>, key: bytes, at: nat) {
    !EndsInPut(log, key, at) && EndsInPut(StoredEvents(backend, log), key, at)
  }

  /**
   After a restart a read at or after `w` is right in presence, value and modified
   revision, unless the restart brings back a key that was gone.
   */
  lemma RestartedReads(s: Store, log: seq<Event>, w: nat, key: bytes, at: nat)
    requires Tracks(s, log, w) && w <= at
    ensures SameReading(Replay(StoredEvents(s.backend, log), key, at), Replay(log, key, at)) <==>
            !Resurfaces(s.backend, log, key, at)
    ensures Resurfaces(s.backend, log, key, at) ==> Replay(log, key, at).None?
  {
    hide Replay, Select, LastOf;
    ReplayIsLast(log, key, at);
    ReplayIsLast(StoredEvents(s.backend, log), key, at);
    if Replay(log, key, at).Some? {
      PresentStays(s, log, w, key, at);
    }
  }

  // ---- The order records are dropped in ------------------------------------------------------------

  ghost predicate Ascends(revs: seq<Revision>) {
    forall p, q :: 0 <= p < q < |revs| ==> revs[p].Before(revs[q])
  }

  lemma AscendsBackwards(revs: seq<Revision>, a: nat, b: nat)
    requires Ascends(revs) && a < |revs| && b < |revs|
    ensures revs[a].Before(revs[b]) ==> a < b
  {
    assert b < a ==> revs[b].Before(revs[a]);
  }

  ghost predicate Precede(before: multiset<Revision>, revs: seq<Revision>) {
    forall r, j :: r in before && 0 <= j < |revs| ==> r.Before(revs[j])
  }

  /** Revisions come in the order they were given, across generations too. */
  ghost predicate Rises(h: History) {
    h != [] ==> Rises(Front(h)) && Ascends(Last(h).revs) && Precede(AllRevs(Front(h)), Last(h).revs)
  }

  lemma RisesSnoc(h: History, g: Generation)
    requires Rises(h) && Ascends(g.revs) && Precede(AllRevs(h), g.revs)
    ensures Rises(h + [g])
  {
    Snoc(h, g);
  }

  lemma AscendsSnoc(revs: seq<Revision>, r: Revision)
    requires Ascends(revs) && forall j :: 0 <= j < |revs| ==> revs[j].Before(r)
    ensures Ascends(revs + [r])
  {
  }

  lemma RecordRises(h: History, m: Mutation, r: Revision)
    requires Rises(h) && forall x :: x in AllRevs(h) ==> x.Before(r)
    ensures Rises(Record(h, m, r))
  {
    if Open(h) {
      var front, g := Front(h), Last(h);
      forall p | 0 <= p < |g.revs| ensures g.revs[p].Before(r) { assert g.revs[p] in AllRevs(h); }
      AscendsSnoc(g.revs, r);
      RisesSnoc(front, Pushed(g, r, m.Delete?));
    } else if m.Put? {
      RisesSnoc(h, Generation(r, 1, [r], false));
    }
  }

  lemma {:induction false} HistoryRises(log: seq<Event>, key: bytes)
    requires Rising(log)
    ensures Rises(HistoryOf(log, key))
  {
    if log != [] {
      var e, front := Last(log), Front(log);
      HistoryRises(front, key);
      RevsComeFromLog(front, key);
      forall x | x in AllRevs(HistoryOf(front, key)) ensures x.Before(e.rev) {
        var i :| 0 <= i < |front| && front[i].rev == x && front[i].m.key == key;
        assert log[i].rev.Before(log[|front|].rev);
      }
      RecordRises(HistoryOf(front, key), e.m, e.rev);
    }
  }

  lemma KeptAmong(h: History, c: nat)
    ensures forall r :: r in AllRevs(Trim(h, c)) || r in Dropped(h, c) ==> r in AllRevs(h)
  {
    DroppedComplementsTrim(h, c);
    forall r | r in AllRevs(Trim(h, c)) || r in Dropped(h, c) ensures r in AllRevs(h) {
      InMultiset(Dropped(h, c), r);
    }
  }

  lemma {:induction false} TrimRises(h: History, c: nat)
    requires Rises(h)
    ensures Rises(Trim(h, c)) && Ascends(Dropped(h, c))
  {
    hide Ascends, Precede, AllRevs, Cut;
    if h == [] {
      NothingAscends();
    } else {
      var f, g := Front(h), Last(h);
      TrimRises(f, c);
      KeptAmong(f, c);
      AscendsParts(g.revs, Cut(g, c));
      FewerPrecede(AllRevs(f), AllRevs(Trim(f, c)), g.revs, Cut(g, c));
      AscendsJoin(Dropped(f, c), AllRevs(f), g.revs, Cut(g, c));
      if Cut(g, c) < |g.revs| {
        RisesSnoc(Trim(f, c), Trimmed(g, c));
      } else {
        assert Trim(f, c) + [] == Trim(f, c);
      }
    }
  }

  lemma NothingAscends()
    ensures Ascends([])
  {
  }

  lemma AscendsParts(revs: seq<Revision>, n: nat)
    requires Ascends(revs) && n <= |revs|
    ensures Ascends(revs[..n]) && Ascends(revs[n..])
  {
  }

  lemma FewerPrecede(before: multiset<Revision>, fewer: multiset<Revision>, revs: seq<Revision>, n: nat)
    requires Precede(before, revs) && n <= |revs| && forall r :: r in fewer ==> r in before
    ensures Precede(fewer, revs[n..])
  {
  }

  lemma AscendsJoin(a: seq<Revision>, before: multiset<Revision>, revs: seq<Revision>, n: nat)
    requires Ascends(a) && Ascends(revs) && n <= |revs| && Precede(before, revs) && forall r :: r in a ==> r in before
    ensures Ascends(a + revs[..n])
  {
    var all := a + revs[..n];
    forall p, q | 0 <= p < q < |all| ensures all[p].Before(all[q]) {
      assert p < |a| ==> a[p] in a;
    }
  }

  /** The dropped revisions of one listed key stand together. */
  lemma {:induction false} DroppedTogether(idx: IndexMap, keys: seq<bytes>, c: nat, p: nat)
    requires p < |keys|
    ensures var pre, here := DroppedFrom(idx, keys[..p], c), Dropped(Lookup(idx, keys[p]), c);
            pre + here <= DroppedFrom(idx, keys, c)
  {
    if p == |keys| - 1 {
      assert keys[..p] == Front(keys);
    } else {
      DroppedTogether(idx, Front(keys), c, p);
      assert Front(keys)[..p] == keys[..p];
    }
  }

  lemma DroppedOfKey(log: seq<Event>, w: nat, c: nat, i: nat)
    requires Written(log) && w <= c && i < |log| && log[i].rev in DroppedAt(TrimIndex(IndexOf(log), w), c)
    ensures var idx := TrimIndex(IndexOf(log), w);
            && log[i].m.key in Sorted(idx.Keys)
            && log[i].rev in Dropped(Lookup(idx, log[i].m.key), c)
  {
    var idx := TrimIndex(IndexOf(log), w);
    var keys, r := Sorted(idx.Keys), log[i].rev;
    IndexHistories(log, w);
    DroppedBelongs(idx, keys, c, r);
    var j :| 0 <= j < |keys| && r in Dropped(Lookup(idx, keys[j]), c);
    HistorySplits(log, keys[j], w, c, r);
    RevsComeFromLog(log, keys[j]);
    var m :| 0 <= m < |log| && log[m].rev == r && log[m].m.key == keys[j];
    RevisionNamesEvent(log, i, m);
  }

  /** Of one key, earlier records are removed before later ones. */
  lemma RemovedInOrder(log: seq<Event>, w: nat, c: nat, i: nat, t: nat, n: nat)
    requires Written(log) && w <= c && i < t < |log| && log[i].m.key == log[t].m.key
    requires n <= |DroppedAt(TrimIndex(IndexOf(log), w), c)|
    requires log[i].rev in DroppedAt(TrimIndex(IndexOf(log), w), c)
    requires log[t].rev in DroppedAt(TrimIndex(IndexOf(log), w), c)[..n]
    ensures log[i].rev in DroppedAt(TrimIndex(IndexOf(log), w), c)[..n]
  {
    hide Dropped, DroppedFrom, TrimIndex, IndexOf, HistoryOf, Trim, Lookup, Rises, Ascends, Written;
    var idx := TrimIndex(IndexOf(log), w);
    var keys, key, dropped := Sorted(idx.Keys), log[i].m.key, DroppedAt(idx, c);
    DroppedOfKey(log, w, c, i);
    DroppedOfKey(log, w, c, t);
    var p :| 0 <= p < |keys| && keys[p] == key;
    DroppedTogether(idx, keys, c, p);
    DroppedOfKeyAscends(log, key, w, c);
    assert log[i].rev.Before(log[t].rev) by { WrittenRises(log, i, t); }
    SortedAscends(idx.Keys);
    DroppedDistinct(log, w, c, keys, log[t].rev);
    EarlierComesFirst(DroppedFrom(idx, keys[..p], c), Dropped(Lookup(idx, key), c), dropped, log[i].rev, log[t].rev, n);
  }

  lemma WrittenRises(log: seq<Event>, i: nat, t: nat)
    requires Written(log) && i < t < |log|
    ensures log[i].rev.Before(log[t].rev)
  {
  }

  lemma DroppedOfKeyAscends(log: seq<Event>, key: bytes, w: nat, c: nat)
    requires Written(log)
    ensures Ascends(Dropped(Lookup(TrimIndex(IndexOf(log), w), key), c))
  {
    HistoryRises(log, key);
    TrimRises(HistoryOf(log, key), w);
    IndexHistories(log, w);
    TrimRises(Trim(HistoryOf(log, key), w), c);
  }

  /** In a run of ascending revisions an earlier one is reached first. */
  lemma EarlierComesFirst(pre: seq<Revision>, here: seq<Revision>, all: seq<Revision>, r: Revision, later: Revision,
                          n: nat)
    requires pre + here <= all && Ascends(here) && r in here && later in here && r.Before(later)
    requires n <= |all| && later in all[..n] && multiset(all)[later] <= 1
    ensures r in all[..n]
  {
    var a :| 0 <= a < |here| && here[a] == r;
    var b :| 0 <= b < |here| && here[b] == later;
    AscendsBackwards(here, a, b);
    assert (pre + here)[|pre| + a] == all[|pre| + a] && (pre + here)[|pre| + b] == all[|pre| + b];
    var q :| 0 <= q < n && all[..n][q] == later;
    OnePlace(all, q, |pre| + b);
    assert all[..n][|pre| + a] == r;
  }

  lemma OnePlace<T>(s: seq<T>, p: nat, q: nat)
    requires p < |s| && q < |s| && s[p] == s[q] && multiset(s)[s[p]] <= 1
    ensures p == q
  {
    if p < q {
      TwoPlaces(s, p, q);
    } else if q < p {
      TwoPlaces(s, q, p);
    }
  }

  lemma TwoPlaces<T>(s: seq<T>, p: nat, q: nat)
    requires p < q < |s| && s[p] == s[q]
    ensures multiset(s)[s[p]] >= 2
  {
    assert s == s[..p] + [s[p]] + s[p + 1..q] + [s[q]] + s[q + 1..];
  }

  // ---- Where a restart brings nothing back -----------------------------------------------------------

  /** A put, and a later deletion that ended its key. */
  predicate Covers(log: seq<Event>, i: nat, t: nat)
    requires i < t < |log|
  {
    log[i].m.Put? && log[t].m.Delete? && log[i].m.key == log[t].m.key && !AbsentDelete(log, t)
  }

  /** A key is open, at that write, exactly after a put. */
  lemma RecordOpens(h: History, m: Mutation, r: Revision)
    ensures Open(Record(h, m, r)) <==> m.Put?
    ensures m.Put? ==> FinalRev(Last(Record(h, m, r))) == r
  {
    if Open(h) { Snoc(Front(h), Pushed(Last(h), r, m.Delete?)); }
    Snoc(h, Generation(r, 1, [r], false));
  }

  lemma {:induction false} OpenAfterPut(log: seq<Event>, i: nat, t: nat)
    requires i < t <= |log| && log[i].m.Put?
    requires forall j :: i < j < t && log[j].m.key == log[i].m.key ==> log[j].m.Put?
    ensures Open(HistoryOf(log[..t], log[i].m.key))
  {
    hide Record, Open;
    var key, front := log[i].m.key, log[..t - 1];
    assert Front(log[..t]) == front && Last(log[..t]) == log[t - 1];
    RecordOpens(HistoryOf(front, key), log[t - 1].m, log[t - 1].rev);
    if i < t - 1 {
      OpenAfterPut(log, i, t - 1);
    }
  }

  /** The first deletion of a key after a put of it. */
  lemma {:induction false} NextDelete(log: seq<Event>, i: nat, last: nat) returns (t: nat)
    requires i < last < |log| && log[i].m.Put? && log[last].m.Delete? && log[i].m.key == log[last].m.key
    ensures i < t <= last && Covers(log, i, t)
  {
    t := i + 1;
    while !(log[t].m.key == log[i].m.key && log[t].m.Delete?)
      invariant i < t <= last
      invariant forall j :: i < j < t && log[j].m.key == log[i].m.key ==> log[j].m.Put?
      decreases last - t
    {
      t := t + 1;
    }
    OpenAfterPut(log, i, t);
  }

  /** A deletion's record outlives those of the key's earlier puts. */
  lemma {:induction false} TombstoneOutlives(log: seq<Event>, i: nat, t: nat, w: nat)
    requires Written(log) && i < t < |log| && Covers(log, i, t) && Survives(log, i, w)
    ensures Survives(log, t, w)
  {
    hide Trim, AllRevs;
    var key, e, front := log[i].m.key, Last(log), Front(log);
    if LastRevision(log).main <= w {
      var open, p := Open(HistoryOf(log, key)), 0;
      if open {
        p := OpenEndsInPut(log, key);
      }
      SettledSurvival(log, key, w, open, p, i);
      NotDeletedSince(log, key, i, t);
    } else {
      WrittenFront(log);
      assert log == front + [e];
      SurvivalIsStable(front, e, w, i);
      SurvivalIsStable(front, e, w, t);
      if t < |front| {
        assert front[..t] == log[..t];
        TombstoneOutlives(front, i, t, w);
      }
    }
  }

  /** After the last put of an open history its key is not deleted. */
  lemma NotDeletedSince(log: seq<Event>, key: bytes, p: nat, t: nat)
    requires Written(log) && Open(HistoryOf(log, key)) && p < t < |log|
    requires log[p].rev == FinalRev(Last(HistoryOf(log, key)))
    requires log[t].m.key == key
    ensures !log[t].m.Delete?
  {
    HistoryTail(log, key, p, t);
    HistoryTail(log, key, p, t + 1);
    assert Front(log[..t + 1]) == log[..t] && Last(log[..t + 1]) == log[t];
    var h := HistoryOf(log[..t], key);
    Snoc(Front(h), Pushed(Last(h), log[t].rev, log[t].m.Delete?));
  }

  lemma RepresentedIsWritten(s: Store, log: seq<Event>)
    requires Represents(s, log)
    ensures Written(log) && ValidRevisions(log) && s.index == TrimIndex(IndexOf(log), s.compacted)
  {
  }

  /** The last event of a key at or before `at` is no earlier than any other, and if not a put a deletion. */
  lemma LastAfter(log: seq<Event>, key: bytes, at: nat, i: nat) returns (last: nat)
    requires i < |log| && log[i].m.key == key && log[i].rev.main <= at && log[i].m.Put? && !EndsInPut(log, key, at)
    ensures i < last < |log| && log[last].m.Delete? && log[last].m.key == key && log[last].rev.main <= at
  {
    SomeLast(log, key, at, i);
    last := LastIsIn(log, key, at);
  }

  lemma {:induction false} SomeLast(log: seq<Event>, key: bytes, at: nat, i: nat)
    requires i < |log| && log[i].m.key == key && log[i].rev.main <= at
    ensures LastOf(log, key, at).Some?
  {
    if i < |log| - 1 {
      SomeLast(Front(log), key, at, i);
    }
  }

  /** A put of a key gone by `at` is covered by then. */
  lemma CoveringDelete(log: seq<Event>, key: bytes, at: nat, i: nat) returns (t: nat)
    requires Written(log) && i < |log| && log[i].m.Put? && log[i].m.key == key && log[i].rev.main <= at
    requires !EndsInPut(log, key, at)
    ensures i < t < |log| && Covers(log, i, t) && log[t].rev.main <= at
  {
    var last := LastAfter(log, key, at, i);
    t := NextDelete(log, i, last);
    RisingIsOrdered(log);
    assert t < last ==> log[t].rev.main <= log[last].rev.main;
  }

  /** Where a put's record is left over, so is that of the deletion that ended it. */
  lemma TombstoneStored(s: Store, log: seq<Event>, c: nat, n: nat, i: nat, t: nat)
    requires Represents(s, log) && s.compacted <= c && n <= |DroppedAt(s.index, c)| && AllValid(DroppedAt(s.index, c))
    requires Written(log) && i < t < |log| && Covers(log, i, t)
    requires Key(log[i]) in CompactedPartly(s, c, n).backend
    ensures Key(log[t]) in CompactedPartly(s, c, n).backend
  {
    hide Represents, DroppedAt, TrimIndex, IndexOf, Survives;
    var w, dropped := s.compacted, DroppedAt(s.index, c);
    RepresentedIsWritten(s, log);
    RemovedKeys(s.backend, dropped[..n], Key(log[i]));
    RemovedKeys(s.backend, dropped[..n], Key(log[t]));
    StoredSurvives(s, log, i);
    StoredSurvives(s, log, t);
    TombstoneOutlives(log, i, t, w);
    assert log[i].rev !in dropped[..n];
    assert log[t].rev !in dropped[..n] by { PutGoesFirst(log, w, c, i, t, n); }
    forall j | 0 <= j < n
      ensures Key(log[t]) != BackendKey(dropped[j], false) && Key(log[t]) != BackendKey(dropped[j], true)
    {
      assert dropped[..n][j] == dropped[j];
      KeyRoundTrip(log[t].rev, true, Key(log[t]));
      KeyRoundTrip(dropped[j], false, Key(log[t]));
      KeyRoundTrip(dropped[j], true, Key(log[t]));
    }
  }

  /** The record of a deletion is removed only after that of the put before it. */
  lemma PutGoesFirst(log: seq<Event>, w: nat, c: nat, i: nat, t: nat, n: nat)
    requires Written(log) && w <= c && i < t < |log| && Covers(log, i, t)
    requires Survives(log, i, w) && n <= |DroppedAt(TrimIndex(IndexOf(log), w), c)|
    ensures var dropped := DroppedAt(TrimIndex(IndexOf(log), w), c);
            log[t].rev in dropped[..n] ==> log[i].rev in dropped[..n]
  {
    hide DroppedAt, TrimIndex, IndexOf, Survives;
    var dropped := DroppedAt(TrimIndex(IndexOf(log), w), c);
    if log[t].rev in dropped[..n] {
      var q :| 0 <= q < n && dropped[..n][q] == log[t].rev;
      assert dropped[q] == log[t].rev;
      PutDroppedToo(log, w, c, i, t);
      RemovedInOrder(log, w, c, i, t, n);
    }
  }

  lemma PutDroppedToo(log: seq<Event>, w: nat, c: nat, i: nat, t: nat)
    requires Written(log) && w <= c && i < t < |log| && Covers(log, i, t) && Survives(log, i, w)
    requires log[t].rev in DroppedAt(TrimIndex(IndexOf(log), w), c)
    ensures log[i].rev in DroppedAt(TrimIndex(IndexOf(log), w), c)
  {
    hide DroppedAt, TrimIndex, IndexOf, Survives;
    DroppedIsNoLongerSurviving(log, w, c, i);
    DroppedIsNoLongerSurviving(log, w, c, t);
    if Survives(log, i, c) {
      TombstoneOutlives(log, i, t, c);
    }
  }

  // ---- Runs that keep it so --------------------------------------------------------------------------

  /** Where the record of a put is stored, so are those of the deletions after it. */
  ghost predicate Shadowed(backend: Map, log: seq<Event>)
    requires Written(log)
  {
    forall i, t :: 0 <= i < t < |log| && Covers(log, i, t) && Key(log[i]) in backend ==> Key(log[t]) in backend
  }

  /** Then a restart brings nothing back. */
  lemma ShadowedIsSafe(backend: Map, log: seq<Event>, key: bytes, at: nat)
    requires Written(log) && Shadowed(backend, log)
    ensures !Resurfaces(backend, log, key, at)
  {
    hide Select, LastOf;
    if Resurfaces(backend, log, key, at) {
      var i := LastOfSelected(log, StoredSet(backend, log), |log|, key, at);
      var t := CoveringDelete(log, key, at, i);
      assert false;
    }
  }

  /** Where nothing is left over, nothing can come back. */
  lemma RepresentsShadowed(s: Store, log: seq<Event>)
    requires Represents(s, log)
    ensures Written(log) && Shadowed(s.backend, log)
  {
    forall i, t | 0 <= i < t < |log| && Covers(log, i, t) && Key(log[i]) in s.backend
      ensures Key(log[t]) in s.backend
    {
      StoredSurvives(s, log, i);
      StoredSurvives(s, log, t);
      TombstoneOutlives(log, i, t, s.compacted);
    }
  }

  /** Nor after a compaction that stopped anywhere: of each key the older records go first. */
  lemma StoppedShadowed(s: Store, log: seq<Event>, c: nat, n: nat)
    requires Represents(s, log) && CompactRefusal(s, c) == None && n <= |DroppedAt(s.index, c)|
    ensures AllValid(DroppedAt(s.index, c)) && Written(log)
    ensures Shadowed(CompactedPartly(s, c, n).backend, log)
  {
    hide Represents, DroppedAt, TrimIndex, IndexOf, Survives, Covers;
    RepresentedIsWritten(s, log);
    DroppedAllValid(log, s.compacted, c);
    forall i, t | 0 <= i < t < |log| && Covers(log, i, t) && Key(log[i]) in CompactedPartly(s, c, n).backend
      ensures Key(log[t]) in CompactedPartly(s, c, n).backend
    {
      TombstoneStored(s, log, c, n, i, t);
    }
  }

  lemma CoversEarlier(log: seq<Event>, e: Event, i: nat, t: nat)
    requires i < t < |log|
    ensures Covers(log + [e], i, t) <==> Covers(log, i, t)
  {
    assert (log + [e])[..t] == log[..t];
  }

  lemma EventShadowed(backend: Map, log: seq<Event>, e: Event)
    requires Written(log) && Written(log + [e]) && e.rev.Valid() && Shadowed(backend, log)
    ensures Shadowed(backend[Key(e) := Value(e)], log + [e])
  {
    hide Covers;
    var all, next := log + [e], backend[Key(e) := Value(e)];
    forall i, t | 0 <= i < t < |all| && Covers(all, i, t) && Key(all[i]) in next ensures Key(all[t]) in next {
      if t < |log| {
        CoversEarlier(log, e, i, t);
        KeyIsInjective(all[i], e);
        assert all[i].rev.Before(all[|log|].rev);
      }
    }
  }

  lemma {:induction false} EventsShadowed(backend: Map, log: seq<Event>, events: seq<Event>)
    requires Written(log) && Written(log + events) && ValidRevisions(events) && Shadowed(backend, log)
    ensures Shadowed(WithRecords(backend, events), log + events)
  {
    hide Shadowed;
    if events == [] {
      assert log + events == log;
    } else {
      var front, e := Front(events), Last(events);
      assert log + events == (log + front) + [e];
      WrittenFront(log + events);
      assert Front(log + events) == log + front;
      EventsShadowed(backend, log, front);
      EventShadowed(WithRecords(backend, front), log + front, e);
    }
  }

  lemma MarkerShadowed(backend: Map, log: seq<Event>, v: bytes)
    requires Written(log) && Shadowed(backend, log)
    ensures Shadowed(backend[APPLIED_KEY := v], log)
  {
    forall i | 0 <= i < |log| ensures Key(log[i]) != APPLIED_KEY { KeyIsInjective(log[i], log[i]); }
  }

  lemma ApplyShadowed(s: Store, log: seq<Event>, batch: seq<Mutation>, upto: nat)
    requires Written(log) && s.current == LastRevision(log) && Shadowed(s.backend, log)
    requires Storable(batch) && s.current.main + |batch| <= I64_MAX && upto < U64_END
    ensures Written(log + EventsAfter(s.current, batch))
    ensures Shadowed(ApplyTo(s, batch, upto).backend, log + EventsAfter(s.current, batch))
  {
    hide Shadowed;
    var events := EventsAfter(s.current, batch);
    EventsExtend(log, batch);
    EventsShadowed(s.backend, log, events);
    MarkerShadowed(WithRecords(s.backend, events), log + events, EncodePosition(upto));
  }
}
