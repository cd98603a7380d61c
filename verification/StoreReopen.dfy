/**
 Reopening: what rebuilding from the backend's records recovers. Without history
 compaction it is the very store that wrote them; with it, every generation restarts
 at the first revision compaction kept.
 */
module StoreReopen {
  import opened Wrappers
  import opened Sequences
  import opened ByteStrings
  import opened Revisions
  import opened Mutations
  import opened StoredRecord
  import opened OrderedScan
  import opened Histories
  import opened Indexes
  import opened Stores
  import opened StoreInvariant
  import opened StoreCompaction
  import StoreReads

  /** The events among the first `n` at the given positions, in order. */
  function Select(log: seq<Event>, keep: set<nat>, n: nat): seq<Event>
    requires n <= |log|
  {
    if n == 0 then []
    else Select(log, keep, n - 1) + if n - 1 in keep then [log[n - 1]] else []
  }

  /** The positions whose records survive compaction at `w`. */
  function SurvivorSet(log: seq<Event>, w: nat): set<nat> {
    set i: nat | i < |log| && Survives(log, i, w)
  }

  function Kept(log: seq<Event>, w: nat, n: nat): seq<Event>
    requires n <= |log|
  {
    Select(log, SurvivorSet(log, w), n)
  }

  function Survivors(log: seq<Event>, w: nat): seq<Event> {
    Kept(log, w, |log|)
  }

  ghost predicate IsSelected(log: seq<Event>, keep: set<nat>, n: nat, e: Event)
    requires n <= |log|
  {
    exists i :: 0 <= i < n && i in keep && log[i] == e
  }

  lemma {:induction false} SelectMembers(log: seq<Event>, keep: set<nat>, n: nat, e: Event)
    requires n <= |log|
    ensures e in Select(log, keep, n) <==> IsSelected(log, keep, n, e)
  {
    if n > 0 {
      SelectMembers(log, keep, n - 1, e);
      if IsSelected(log, keep, n - 1, e) {
        var i :| 0 <= i < n - 1 && i in keep && log[i] == e;
        assert IsSelected(log, keep, n, e);
      }
    }
  }

  lemma {:induction false} SelectWritten(log: seq<Event>, keep: set<nat>, n: nat)
    requires Written(log) && n <= |log|
    ensures Written(Select(log, keep, n))
    ensures forall i :: 0 <= i < |Select(log, keep, n)| && n < |log| ==> Select(log, keep, n)[i].rev.Before(log[n].rev)
  {
    if n > 0 {
      SelectWritten(log, keep, n - 1);
      var before := Select(log, keep, n - 1);
      if n < |log| { assert log[n - 1].rev.Before(log[n].rev); }
      forall i | 0 <= i < |before| && n < |log| ensures before[i].rev.Before(log[n].rev) {
        assert before[i].rev.Before(log[n - 1].rev);
      }
    }
  }

  lemma {:induction false} SelectAgrees(log: seq<Event>, more: seq<Event>, a: set<nat>, b: set<nat>, n: nat)
    requires n <= |log| <= |more| && forall i :: 0 <= i < n ==> log[i] == more[i] && (i in a <==> i in b)
    ensures Select(log, a, n) == Select(more, b, n)
  {
    if n > 0 {
      SelectAgrees(log, more, a, b, n - 1);
    }
  }

  lemma {:induction false} SelectAll(log: seq<Event>, keep: set<nat>, n: nat)
    requires n <= |log| && forall i :: 0 <= i < n ==> i in keep
    ensures Select(log, keep, n) == log[..n]
  {
    if n > 0 {
      SelectAll(log, keep, n - 1);
    }
  }

  lemma KeptMembers(log: seq<Event>, w: nat, e: Event)
    ensures e in Survivors(log, w) <==> exists i :: 0 <= i < |log| && Survives(log, i, w) && log[i] == e
  {
    var keep := SurvivorSet(log, w);
    SelectMembers(log, keep, |log|, e);
    if e in Survivors(log, w) {
      var i :| 0 <= i < |log| && i in keep && log[i] == e;
      assert Survives(log, i, w);
    }
    if i :| 0 <= i < |log| && Survives(log, i, w) && log[i] == e {
      assert i in keep;
    }
  }

  /** Events above the compaction point are selected after whatever was before. */
  lemma KeptGrows(log: seq<Event>, e: Event, w: nat)
    requires Extends(log, e, w)
    ensures Survivors(log + [e], w) == Survivors(log, w) + [e]
  {
    var a, b := SurvivorSet(log, w), SurvivorSet(log + [e], w);
    forall i: nat | i <= |log| ensures i in b <==> (i == |log| || i in a) {
      SurvivalIsStable(log, e, w, i);
    }
    SelectAgrees(log, log + [e], a, b, |log|);
  }

  // ---- Histories rebuilt from surviving events -------------------------------------

  /** A generation as a rebuild sees it: begun at its first kept revision. */
  function Begun(g: Generation): Generation {
    Generation(if g.revs == [] then ZERO else g.revs[0], |g.revs|, g.revs, g.closed)
  }

  function Restarted(h: History): History {
    if h == [] then [] else Restarted(Front(h)) + [Begun(Last(h))]
  }

  lemma RestartedRecord(h: History, m: Mutation, r: Revision)
    requires ValidHistory(h)
    ensures Restarted(Record(h, m, r)) == Record(Restarted(h), m, r)
  {
    if h != [] {
      Snoc(Restarted(Front(h)), Begun(Last(h)));
    }
    if Open(h) {
      Snoc(Front(h), Pushed(Last(h), r, m.Delete?));
      assert Begun(Pushed(Last(h), r, m.Delete?)) == Pushed(Begun(Last(h)), r, m.Delete?);
    } else {
      Snoc(h, Generation(r, 1, [r], false));
    }
  }

  /** The history keeps its shape from its final revision's event on. */
  lemma {:induction false} HistoryTail(log: seq<Event>, key: bytes, p: nat, n: nat)
    requires Rising(log) && p < n <= |log| && HistoryOf(log, key) != []
    requires log[p].rev == FinalRev(Last(HistoryOf(log, key)))
    ensures HistoryOf(log[..n], key) == HistoryOf(log, key)
  {
    if n < |log| {
      var e, front := Last(log), Front(log);
      var h := HistoryOf(front, key);
      assert log[p].rev.Before(e.rev);
      if Open(h) { Snoc(Front(h), Pushed(Last(h), e.rev, e.m.Delete?)); }
      Snoc(h, Generation(e.rev, 1, [e.rev], false));
      assert HistoryOf(log, key) == h;
      HistoryTail(front, key, p, n);
      assert front[..n] == log[..n];
    } else {
      assert log[..n] == log;
    }
  }

  lemma {:induction false} OpenEndsInPut(log: seq<Event>, key: bytes) returns (p: nat)
    requires Open(HistoryOf(log, key))
    ensures p < |log| && log[p].m.Put? && log[p].m.key == key
    ensures log[p].rev == FinalRev(Last(HistoryOf(log, key)))
  {
    var e, front := Last(log), Front(log);
    var h := HistoryOf(front, key);
    if e.m.key == key && e.m.Put? {
      p := |log| - 1;
      if Open(h) { Snoc(Front(h), Pushed(Last(h), e.rev, false)); }
      Snoc(h, Generation(e.rev, 1, [e.rev], false));
    } else {
      if e.m.key == key && Open(h) { Snoc(Front(h), Pushed(Last(h), e.rev, true)); }
      p := OpenEndsInPut(front, key);
    }
  }

  /** What compaction leaves once every event is at or before it: at most one revision. */
  lemma SettledTrim(h: History, w: nat)
    requires ValidHistory(h) && UpTo(h, w)
    ensures !Open(h) ==> Trim(h, w) == []
    ensures Open(h) ==> |Trim(h, w)| == 1 && Trim(h, w)[0].revs == [FinalRev(Last(h))] && !Trim(h, w)[0].closed
    ensures Open(h) ==> AllRevs(Trim(h, w)) == multiset{FinalRev(Last(h))}
  {
    if Open(h) {
      var g := Last(h);
      forall i | 0 <= i < |g.revs| ensures g.revs[i].main <= w {
        assert i == |g.revs| - 1 || g.revs[i].main <= FinalRev(g).main;
      }
      VisibleIs(g.revs, w, |g.revs|);
      FirstToFinal(g);
      BegunIsAlone(h, w);
      assert Trim(h, w) == [Trimmed(g, w)];
      Snoc([], Trimmed(g, w));
    } else {
      EndedIsGone(h, w);
    }
  }

  function Single(r: Revision): History {
    [Generation(r, 1, [r], false)]
  }

  /** The key ends open with the put at `p`, or ends closed. */
  ghost predicate EndsAt(log: seq<Event>, key: bytes, open: bool, p: nat) {
    && open == Open(HistoryOf(log, key))
    && (open ==> p < |log| && log[p].m.Put? && log[p].m.key == key && log[p].rev == FinalRev(Last(HistoryOf(log, key))))
  }

  /** Which events of a key survive a compaction none of the log is above. */
  lemma SettledSurvival(log: seq<Event>, key: bytes, w: nat, open: bool, p: nat, n: nat)
    requires Written(log) && n < |log| && LastRevision(log).main <= w && log[n].m.key == key
    requires EndsAt(log, key, open, p)
    ensures Survives(log, n, w) <==> if open && p <= n then n == p else AbsentDelete(log, n)
    ensures AbsentDelete(log, n) ==> log[n].m.Delete?
  {
    var h := HistoryOf(log, log[n].m.key);
    RisingIsOrdered(log);
    HistoryValid(log, log[n].m.key, LastRevision(log).main);
    SettledTrim(h, w);
    if Open(h) {
      if p == n {
        assert log[n].rev in [log[p].rev];
      } else {
        assert log[n].rev != log[p].rev by { if log[n].rev == log[p].rev { RevisionNamesEvent(log, n, p); } }
        if p < n { HistoryTail(log, log[n].m.key, p, n); }
      }
    }
  }

  /** One more position considered is at most one more event recorded. */
  lemma KeptHistoryNext(log: seq<Event>, w: nat, n: nat, key: bytes)
    requires n < |log|
    ensures HistoryOf(Kept(log, w, n + 1), key) ==
            if Survives(log, n, w) && log[n].m.key == key
            then Record(HistoryOf(Kept(log, w, n), key), log[n].m, log[n].rev)
            else HistoryOf(Kept(log, w, n), key)
  {
    Snoc(Kept(log, w, n), log[n]);
    assert Kept(log, w, n) + [] == Kept(log, w, n);
    assert n in SurvivorSet(log, w) <==> Survives(log, n, w);
  }

  /** A settled history is at most the final put: what recording one event does to it. */
  lemma SettledRecord(open: bool, p: nat, r: Revision, n: nat, e: Event, survives: bool, absent: bool, h: History)
    requires survives <==> if open && p <= n then n == p else absent
    requires absent ==> e.m.Delete?
    requires open && p == n ==> e.m.Put? && e.rev == r
    requires h == if open && p < n then Single(r) else []
    ensures (if survives then Record(h, e.m, e.rev) else h) == if open && p < n + 1 then Single(r) else []
  {
  }

  lemma SettledStep(log: seq<Event>, key: bytes, w: nat, open: bool, p: nat, r: Revision, n: nat)
    requires Written(log) && n < |log| && LastRevision(log).main <= w
    requires EndsAt(log, key, open, p) && (open ==> r == log[p].rev)
    requires HistoryOf(Kept(log, w, n), key) == if open && p < n then Single(r) else []
    ensures HistoryOf(Kept(log, w, n + 1), key) == if open && p < n + 1 then Single(r) else []
  {
    KeptHistoryNext(log, w, n, key);
    if log[n].m.key == key {
      SettledSurvival(log, key, w, open, p, n);
      SettledRecord(open, p, r, n, log[n], Survives(log, n, w), AbsentDelete(log, n), HistoryOf(Kept(log, w, n), key));
    }
  }

  lemma NothingKeptYet(log: seq<Event>, key: bytes, w: nat)
    ensures HistoryOf(Kept(log, w, 0), key) == []
  {
  }

  lemma {:induction false} SettledHistory(log: seq<Event>, key: bytes, w: nat, open: bool, p: nat, r: Revision, n: nat)
    requires Written(log) && n <= |log| && LastRevision(log).main <= w
    requires EndsAt(log, key, open, p) && (open ==> r == log[p].rev)
    ensures HistoryOf(Kept(log, w, n), key) == if open && p < n then Single(r) else []
  {
    hide HistoryOf, Kept, Written, EndsAt, Single;
    if n > 0 {
      SettledHistory(log, key, w, open, p, r, n - 1);
      SettledStep(log, key, w, open, p, r, n - 1);
    } else {
      NothingKeptYet(log, key, w);
    }
  }

  lemma SettledSurvivorHistory(log: seq<Event>, key: bytes, w: nat)
    requires Written(log) && LastRevision(log).main <= w
    ensures HistoryOf(Survivors(log, w), key) == Restarted(Trim(HistoryOf(log, key), w))
  {
    var h := HistoryOf(log, key);
    RisingIsOrdered(log);
    HistoryValid(log, key, w);
    SettledTrim(h, w);
    var p, r := 0, ZERO;
    if Open(h) {
      p := OpenEndsInPut(log, key);
      r := log[p].rev;
      Snoc([], Trim(h, w)[0]);
    }
    SettledHistory(log, key, w, Open(h), p, r, |log|);
  }

  /** Replaying the surviving events restarts what compaction left of each history. */
  lemma {:induction false} SurvivorHistory(log: seq<Event>, key: bytes, w: nat)
    requires Written(log)
    ensures HistoryOf(Survivors(log, w), key) == Restarted(Trim(HistoryOf(log, key), w))
  {
    if LastRevision(log).main <= w {
      SettledSurvivorHistory(log, key, w);
    } else {
      WrittenFront(log);
      assert log == Front(log) + [Last(log)];
      SurvivorHistory(Front(log), key, w);
      SurvivorHistoryNext(Front(log), Last(log), key, w);
    }
  }

  lemma SurvivorHistoryNext(log: seq<Event>, e: Event, key: bytes, w: nat)
    requires Written(log) && Written(log + [e]) && w < e.rev.main
    requires HistoryOf(Survivors(log, w), key) == Restarted(Trim(HistoryOf(log, key), w))
    ensures HistoryOf(Survivors(log + [e], w), key) == Restarted(Trim(HistoryOf(log + [e], key), w))
  {
    Snoc(log, e);
    KeptGrows(log, e, w);
    Snoc(Survivors(log, w), e);
    assert log != [] ==> (log + [e])[|log| - 1].rev.Before((log + [e])[|log|].rev);
    RestartCommutes(log, key, w, e);
  }

  lemma RestartCommutes(log: seq<Event>, key: bytes, w: nat, e: Event)
    requires Written(log) && w < e.rev.main && LastRevision(log).main <= e.rev.main
    ensures var h := HistoryOf(log, key);
            Restarted(Trim(Record(h, e.m, e.rev), w)) == Record(Restarted(Trim(h, w)), e.m, e.rev)
  {
    var h := HistoryOf(log, key);
    RisingIsOrdered(log);
    HistoryValid(log, key, e.rev.main);
    TrimCommutesWithWrites(h, w, e.rev);
    TrimValid(h, w);
    RestartedRecord(Trim(h, w), e.m, e.rev);
  }

  // ---- The scan a rebuild makes -----------------------------------------------------

  function Keys(events: seq<Event>): seq<bytes>
    requires ValidRevisions(events)
  {
    seq(|events|, i requires 0 <= i < |events| => Key(events[i]))
  }

  lemma KeysAscend(events: seq<Event>)
    requires Written(events)
    ensures Ascending(Keys(events))
  {
    forall i, j | 0 <= i < j < |events| ensures Less(Keys(events)[i], Keys(events)[j]) {
      assert events[i].rev.Before(events[j].rev);
      KeyOrder(events[i].rev, events[i].m.Delete?, events[j].rev, events[j].m.Delete?);
    }
  }

  lemma StoredKeyIsKept(backend: Map, log: seq<Event>, w: nat, k: bytes)
    requires Written(log) && HoldsOnly(backend, log, w) && k in backend && [REVISION_PREFIX] <= k
    ensures Written(Survivors(log, w)) && k in Keys(Survivors(log, w))
  {
    var kept := Survivors(log, w);
    SelectWritten(log, SurvivorSet(log, w), |log|);
    assert k[0] == REVISION_PREFIX;
    assert IsRecordOf(log, w, k);
    var i :| 0 <= i < |log| && Survives(log, i, w) && k == Key(log[i]);
    KeptMembers(log, w, log[i]);
    var j :| 0 <= j < |kept| && kept[j] == log[i];
    assert Keys(kept)[j] == k;
  }

  lemma KeptKeyIsStored(backend: Map, log: seq<Event>, w: nat, j: nat)
    requires Written(log) && HoldsAll(backend, log, w) && j < |Survivors(log, w)|
    ensures Survivors(log, w)[j].rev.Valid()
    ensures Key(Survivors(log, w)[j]) in backend && backend[Key(Survivors(log, w)[j])] == Value(Survivors(log, w)[j])
    ensures [REVISION_PREFIX] <= Key(Survivors(log, w)[j])
  {
    var e := Survivors(log, w)[j];
    KeptMembers(log, w, e);
    var i :| 0 <= i < |log| && Survives(log, i, w) && log[i] == e;
    KeyIsInjective(e, e);
  }

  /** Scanning the backend visits the surviving events, in the order they happened. */
  lemma ScanFollowsLog(backend: Map, log: seq<Event>, w: nat)
    requires Written(log) && HoldsAll(backend, log, w) && HoldsOnly(backend, log, w)
    ensures Written(Survivors(log, w))
    ensures RecordKeys(backend) == Keys(Survivors(log, w))
  {
    var kept := Survivors(log, w);
    SelectWritten(log, SurvivorSet(log, w), |log|);
    forall k ensures k in RecordKeys(backend) <==> k in Keys(kept) {
      if k in RecordKeys(backend) {
        StoredKeyIsKept(backend, log, w, k);
      }
      if k in Keys(kept) {
        var j :| 0 <= j < |kept| && Keys(kept)[j] == k;
        KeptKeyIsStored(backend, log, w, j);
      }
    }
    KeysAscend(kept);
    SortedAscends(set k | k in backend && [REVISION_PREFIX] <= k);
    AscendingUnique(RecordKeys(backend), Keys(kept));
  }

  /** Each event's record is stored. */
  ghost predicate AllStored(backend: Map, events: seq<Event>)
    requires ValidRevisions(events)
  {
    forall i :: 0 <= i < |events| ==> Key(events[i]) in backend && backend[Key(events[i])] == Value(events[i])
  }

  /** The records of a log, in order. */
  function RecordsOf(events: seq<Event>): seq<(bytes, bytes)>
    requires ValidRevisions(events)
  {
    if events == [] then [] else RecordsOf(Front(events)) + [(Key(Last(events)), Value(Last(events)))]
  }

  lemma {:induction false} RecordsOfPairs(backend: Map, events: seq<Event>)
    requires Written(events) && AllStored(backend, events)
    ensures (forall i :: 0 <= i < |events| ==> Keys(events)[i] in backend)
    ensures Pairs(backend, Keys(events)) == RecordsOf(events)
  {
    if events != [] {
      var front := Front(events);
      WrittenFront(events);
      RecordsOfPairs(backend, front);
      assert Keys(events) == Keys(front) + [Key(Last(events))];
      assert events[|front|] == Last(events);
      assert Pairs(backend, Keys(events)) == Pairs(backend, Keys(front)) + [(Key(Last(events)), Value(Last(events)))];
    }
  }

  lemma RebuildOne(front: seq<Event>, e: Event)
    requires Written(front + [e])
    requires e.rev.Valid() && ValidRevisions(front)
    requires Rebuild(RecordsOf(front)) == Ok((IndexOf(front), LastRevision(front)))
    ensures Rebuild(RecordsOf(front) + [(Key(e), Value(e))]) == Ok((IndexRecord(IndexOf(front), e.m, e.rev), e.rev))
  {
    assert (front + [e])[|front|] == e;
    Snoc(RecordsOf(front), (Key(e), Value(e)));
    KeyRoundTrip(e.rev, e.m.Delete?, Key(e));
    RecordRoundTrip(e.m.key, e.m.Payload());
    assert front != [] ==> (front + [e])[|front| - 1].rev.Before((front + [e])[|front|].rev);
  }

  lemma {:induction false} RebuildFollowsLog(events: seq<Event>)
    requires Written(events)
    ensures Rebuild(RecordsOf(events)) == Ok((IndexOf(events), LastRevision(events)))
  {
    if events != [] {
      WrittenFront(events);
      assert events == Front(events) + [Last(events)];
      RebuildFollowsLog(Front(events));
      assert events[|events| - 1].rev.Valid();
      RebuildOne(Front(events), Last(events));
    }
  }

  lemma KeptAllStored(backend: Map, log: seq<Event>, w: nat)
    requires Written(log) && HoldsAll(backend, log, w)
    ensures Written(Survivors(log, w)) && AllStored(backend, Survivors(log, w))
  {
    SelectWritten(log, SurvivorSet(log, w), |log|);
    forall i | 0 <= i < |Survivors(log, w)|
      ensures Key(Survivors(log, w)[i]) in backend
      ensures backend[Key(Survivors(log, w)[i])] == Value(Survivors(log, w)[i])
    {
      KeptKeyIsStored(backend, log, w, i);
    }
  }

  /** The store a reopen yields. */
  function Reopened(s: Store, log: seq<Event>): Store {
    var kept := Survivors(log, s.compacted);
    Store(s.backend, IndexOf(kept), LastRevision(kept), 0, s.applied)
  }

  /** Reopening always succeeds, and rebuilds the index of the surviving events. */
  lemma ReopenSucceeds(s: Store, log: seq<Event>)
    requires Represents(s, log)
    ensures OpenOf(s.backend) == Ok(Reopened(s, log))
  {
    ScanFollowsLog(s.backend, log, s.compacted);
    KeptAllStored(s.backend, log, s.compacted);
    RecordsOfPairs(s.backend, Survivors(log, s.compacted));
    RebuildFollowsLog(Survivors(log, s.compacted));
  }

  /** Nothing is dropped by a compaction below every revision. */
  lemma EverythingSurvivesAtZero(log: seq<Event>, i: nat)
    requires Written(log) && i < |log|
    ensures Survives(log, i, 0)
    ensures TrimIndex(IndexOf(log), 0) == IndexOf(log)
  {
    RisingIsOrdered(log);
    TrimAtZero(log);
    IndexIsHistories(log);
    IndexHistories(log, 0);
    RevsOfHistory(log, log[i].m.key, i);
    assert Lookup(IndexOf(log), log[i].m.key) == HistoryOf(log, log[i].m.key);
  }

  /** A reopened store keeps every guarantee from then on, for the log of surviving events. */
  lemma ReopenedRepresents(s: Store, log: seq<Event>)
    requires Represents(s, log)
    ensures Represents(Reopened(s, log), Survivors(log, s.compacted))
  {
    var kept, w := Survivors(log, s.compacted), s.compacted;
    KeptAllStored(s.backend, log, w);
    RisingIsOrdered(kept);
    TrimAtZero(kept);
    forall k | k in s.backend && k != APPLIED_KEY ensures IsRecordOf(kept, 0, k) {
      assert IsRecordOf(log, w, k);
      var i :| 0 <= i < |log| && Survives(log, i, w) && k == Key(log[i]);
      KeptMembers(log, w, log[i]);
      var j :| 0 <= j < |kept| && kept[j] == log[i];
      EverythingSurvivesAtZero(kept, j);
    }
  }

  /** Without history compaction, reopening reproduces the store exactly. */
  lemma ReopenIsIdentity(s: Store, log: seq<Event>)
    requires Represents(s, log) && s.compacted == 0
    ensures OpenOf(s.backend) == Ok(s)
  {
    ReopenSucceeds(s, log);
    AllSurvive(log);
    RisingIsOrdered(log);
    TrimAtZero(log);
  }

  lemma AllSurvive(log: seq<Event>)
    requires Written(log)
    ensures Survivors(log, 0) == log
  {
    forall i | 0 <= i < |log| ensures i in SurvivorSet(log, 0) { EverythingSurvivesAtZero(log, i); }
    SelectAll(log, SurvivorSet(log, 0), |log|);
    assert log[..|log|] == log;
  }

  // ---- With history compaction ---------------------------------------------------------

  /** Every history restarts its generations at their first kept revisions, exactly. */
  lemma ReopenRestartsGenerations(s: Store, log: seq<Event>, key: bytes)
    requires Represents(s, log)
    ensures Lookup(Reopened(s, log).index, key) == Restarted(Lookup(s.index, key))
  {
    SurvivorHistory(log, key, s.compacted);
    IndexIsHistories(Survivors(log, s.compacted));
    IndexHistories(log, s.compacted);
  }

  lemma {:induction false} RestartedAt(h: History, at: nat)
    requires ValidHistory(h)
    ensures At(h, at).None? <==> At(Restarted(h), at).None?
    ensures At(h, at).Some? ==> At(Restarted(h), at).value.modified == At(h, at).value.modified
  {
    if h != [] {
      RestartedAt(Front(h), at);
      Snoc(Restarted(Front(h)), Begun(Last(h)));
    }
  }

  /** Presence, modification and value of every readable read survive a reopen. */
  lemma ReopenKeepsReads(s: Store, log: seq<Event>, key: bytes, at: nat)
    requires Represents(s, log) && s.compacted <= at
    ensures var now, past := At(Lookup(Reopened(s, log).index, key), at), Replay(log, key, at);
            && (now.Some? <==> past.Some?)
            && (now.Some? ==>
                  && now.value.modified == past.value.modified
                  && now.value.modified.Valid() && BackendKey(now.value.modified, false) in s.backend
                  && DecodeRecord(s.backend[BackendKey(now.value.modified, false)]) == Some((key, past.value.value)))
  {
    RisingIsOrdered(log);
    ReopenRestartsGenerations(s, log, key);
    TrimmedReadIsReplay(log, s.compacted, key, at);
    IndexOfValid(log, LastRevision(log).main);
    TrimIndexValid(IndexOf(log), s.compacted, LastRevision(log).main);
    RestartedAt(Lookup(s.index, key), at);
    if Replay(log, key, at).Some? {
      StoreReads.FoundIsStored(s, log, s.compacted, key, at);
    }
  }

  /**
   The watermark is lost with the process: a read before it, once refused, is admitted up
   to the current revision, and finds a key exactly if replay finds it there and still the
   same at the watermark.
   */
  lemma ReopenForgetsWatermark(s: Store, log: seq<Event>, key: bytes, at: nat)
    requires Represents(s, log) && at <= s.compacted
    ensures var past, later := Metadata(Replay(log, key, at)), Metadata(Replay(log, key, s.compacted));
            var now := At(Lookup(Reopened(s, log).index, key), at);
            && (now.Some? <==> past.Some? && past == later)
            && (now.Some? ==> now.value.modified == past.value.modified)
            && (at <= Reopened(s, log).current.main ==> Resolve(Reopened(s, log), Some(at)) == Ok(at))
  {
    hide Replay, Metadata, HistoryOf, Trim, At, Restarted;
    var h := HistoryOf(log, key);
    RisingIsOrdered(log);
    HistoryValid(log, key, LastRevision(log).main);
    ReadIsReplay(log, key, at);
    ReadIsReplay(log, key, s.compacted);
    ReadsBeforePoint(h, s.compacted, at);
    ReopenRestartsGenerations(s, log, key);
    IndexHistories(log, s.compacted);
    TrimValid(h, s.compacted);
    RestartedAt(Trim(h, s.compacted), at);
  }

  /** Whether the last event is a deletion that ended an existing key. */
  predicate EndsInDeletion(log: seq<Event>) {
    log != [] && Last(log).m.Delete? && Open(HistoryOf(Front(log), Last(log).m.key))
  }

  /**
   The current revision survives a reopen exactly unless history was compacted at the
   current revision and that revision deleted an existing key.
   */
  lemma ReopenKeepsRevision(s: Store, log: seq<Event>)
    requires Represents(s, log)
    ensures Reopened(s, log).current == s.current <==> !(EndsInDeletion(log) && s.compacted == s.current.main)
  {
    if log != [] {
      var w, n, e := s.compacted, |log| - 1, Last(log);
      var h := HistoryOf(log, e.m.key);
      LastSurvives(log, w);
      SelectWritten(log, SurvivorSet(log, w), n);
      assert n in SurvivorSet(log, w) <==> Survives(log, n, w);
    }
  }

  lemma LastSurvives(log: seq<Event>, w: nat)
    requires Written(log) && log != [] && w <= LastRevision(log).main
    ensures Survives(log, |log| - 1, w) <==> !(EndsInDeletion(log) && w == LastRevision(log).main)
  {
    var n, e := |log| - 1, Last(log);
    var h, before := HistoryOf(log, e.m.key), HistoryOf(Front(log), e.m.key);
    assert log[..n] == Front(log) && log == Front(log) + [e];
    WrittenFront(log);
    if w < e.rev.main {
      SurvivalIsStable(Front(log), e, w, n);
    } else {
      RisingIsOrdered(log);
      HistoryValid(log, e.m.key, e.rev.main);
      SettledTrim(h, w);
      if Open(before) { Snoc(Front(before), Pushed(Last(before), e.rev, e.m.Delete?)); }
      Snoc(before, Generation(e.rev, 1, [e.rev], false));
    }
  }

  // ---- What reopening refuses ------------------------------------------------------------------

  predicate Sound(record: (bytes, bytes)) {
    ParseKey(record.0).Some? && DecodeRecord(record.1).Some?
  }

  /** A record without its length field, or without all of the key that field states. */
  predicate CutShort(b: bytes) {
    |b| < 4 || |b| < 4 + FromBigEndian(b[..4])
  }

  lemma {:induction false} RebuildRefuses(records: seq<(bytes, bytes)>)
    ensures Rebuild(records).Err? <==> exists i :: 0 <= i < |records| && !Sound(records[i])
    ensures Rebuild(records).Err? ==> Rebuild(records) == Err(Corrupt)
  {
    hide ParseKey, DecodeRecord;
    if records != [] {
      RebuildRefuses(Front(records));
      assert Last(records) == records[|records| - 1];
      if i :| 0 <= i < |Front(records)| && !Sound(Front(records)[i]) { assert !Sound(records[i]); }
      if i :| 0 <= i < |records| && !Sound(records[i]) {
        assert i < |Front(records)| ==> !Sound(Front(records)[i]);
      }
    }
  }

  /**
   Opening refuses a backend as corrupt if and only if it holds a key beginning with `t` that
   no revision has, or such a key with a malformed record, or a malformed position marker.
   */
  lemma OpenRefusesForeign(backend: Map)
    ensures OpenOf(backend).Err? ==> OpenOf(backend) == Err(Corrupt)
    ensures OpenOf(backend).Err? <==>
            || (exists k :: k in backend && k != [] && k[0] == 0x74 && (ParseKey(k).None? || CutShort(backend[k])))
            || ([0x00, 0x01] in backend && |backend[[0x00, 0x01]]| != 8)
  {
    hide ParseKey, DecodeRecord, Rebuild, Records, CutShort, DecodePosition;
    RebuildRefuses(Records(backend));
    UnsoundRecords(backend);
    if APPLIED_KEY in backend { PositionLayout(backend[APPLIED_KEY]); }
  }

  lemma UnsoundRecords(backend: Map)
    ensures (exists i :: 0 <= i < |Records(backend)| && !Sound(Records(backend)[i])) <==>
            exists k :: k in backend && k != [] && k[0] == 0x74 && (ParseKey(k).None? || CutShort(backend[k]))
  {
    hide ParseKey, DecodeRecord, CutShort;
    var keys, records := RecordKeys(backend), Records(backend);
    if i :| 0 <= i < |records| && !Sound(records[i]) {
      assert keys[i] in keys;
      CutShortMeans(backend[keys[i]]);
    }
    if k :| k in backend && k != [] && k[0] == 0x74 && (ParseKey(k).None? || CutShort(backend[k])) {
      assert k in keys;
      var i :| 0 <= i < |keys| && keys[i] == k;
      CutShortMeans(backend[k]);
      assert records[i] == (k, backend[k]) && !Sound(records[i]);
    }
  }

  lemma CutShortMeans(b: bytes)
    ensures CutShort(b) <==> DecodeRecord(b).None?
  {
    MalformedRecord(b);
  }
}
