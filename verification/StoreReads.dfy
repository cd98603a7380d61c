/** Reads of the past: every answer is what replaying the event log up to then gives. */
module StoreReads {
  import opened Wrappers
  import opened Sequences
  import opened ByteStrings
  import opened Revisions
  import opened Mutations
  import opened StoredRecord
  import opened OrderedScan
  import opened Histories
  import opened Indexes
  import opened Stores
  import opened StoreInvariant

  function RowOf(key: bytes, v: Version): Row {
    Row(key, v.value, v.created, v.modified, v.version)
  }

  /** The keyspace as replaying the log up to `at` leaves it, restricted to `range`, ascending. */
  ghost predicate ReadsBack(rows: seq<Row>, log: seq<Event>, range: Range, at: nat) {
    && (forall i, j {:trigger Less(rows[i].key, rows[j].key)} :: 0 <= i < j < |rows| ==> Less(rows[i].key, rows[j].key))
    && (forall i :: 0 <= i < |rows| ==>
          && range.Contains(rows[i].key)
          && Replay(log, rows[i].key, at).Some?
          && rows[i] == RowOf(rows[i].key, Replay(log, rows[i].key, at).value))
    && (forall k :: range.Contains(k) && Replay(log, k, at).Some? ==>
          exists i :: 0 <= i < |rows| && rows[i].key == k)
  }

  lemma {:induction false} ReplayComesFromLog(log: seq<Event>, key: bytes, at: nat)
    ensures var v := Replay(log, key, at);
            v.Some? ==> exists i :: 0 <= i < |log| && log[i] == Event(v.value.modified, Put(key, v.value.value))
  {
    if log != [] {
      ReplayComesFromLog(Front(log), key, at);
      var v := Replay(log, key, at);
      if v.Some? {
        if v == Replay(Front(log), key, at) {
          var i :| 0 <= i < |Front(log)| && Front(log)[i] == Event(v.value.modified, Put(key, v.value.value));
          assert log[i] == Front(log)[i];
        } else {
          assert log[|log| - 1] == Event(v.value.modified, Put(key, v.value.value));
        }
      }
    }
  }

  lemma {:induction false} FoundIsHeld(h: History, at: nat)
    ensures At(h, at).Some? ==> At(h, at).value.modified in AllRevs(h)
  {
    if h != [] {
      FoundIsHeld(Front(h), at);
    }
  }

  /** Whatever a read finds, its record is in the backend with the right key and value. */
  lemma FoundIsStored(s: Store, log: seq<Event>, w: nat, key: bytes, at: nat)
    requires Readable(s, log, w) && w <= at && Replay(log, key, at).Some?
    ensures var v := Replay(log, key, at).value;
            && At(Lookup(s.index, key), at) == Some(Found(v.modified, v.created, v.version))
            && v.modified.Valid() && BackendKey(v.modified, false) in s.backend
            && DecodeRecord(s.backend[BackendKey(v.modified, false)]) == Some((key, v.value))
  {
    hide Replay, EncodeRecord, DecodeRecord, Trim, At, HistoryOf;
    var v := Replay(log, key, at).value;
    RisingIsOrdered(log);
    TrimmedReadIsReplay(log, w, key, at);
    ReplayComesFromLog(log, key, at);
    var i :| 0 <= i < |log| && log[i] == Event(v.modified, Put(key, v.value));
    IndexIsHistories(log);
    IndexOfValid(log, LastRevision(log).main);
    TrimIndexValid(IndexOf(log), w, LastRevision(log).main);
    FoundIsHeld(Lookup(s.index, key), at);
    assert Survives(log, i, w);
    RecordRoundTrip(key, v.value);
  }

  /** Two answers that agree on presence, value and modified revision. */
  predicate SameReading(a: Option<Version>, b: Option<Version>) {
    && (a.Some? <==> b.Some?)
    && (a.Some? ==> a.value.value == b.value.value && a.value.modified == b.value.modified)
  }

  /** Ascending entries, one for each listed key a read finds a value for. */
  ghost predicate FoundAmong(found: seq<(bytes, Found)>, idx: IndexMap, keys: seq<bytes>, at: nat) {
    && (forall i, j {:trigger Less(found[i].0, found[j].0)} :: 0 <= i < j < |found| ==> Less(found[i].0, found[j].0))
    && (forall i :: 0 <= i < |found| ==> found[i].0 in keys)
    && (forall i :: 0 <= i < |found| ==> At(Lookup(idx, found[i].0), at) == Some(found[i].1))
    && (forall k :: k in keys && At(Lookup(idx, k), at).Some? ==> HasKey(found, k))
  }

  ghost predicate HasKey(found: seq<(bytes, Found)>, k: bytes) {
    exists i :: 0 <= i < |found| && found[i].0 == k
  }

  lemma FoundOneMore(found: seq<(bytes, Found)>, idx: IndexMap, keys: seq<bytes>, key: bytes, f: Found, at: nat)
    requires FoundAmong(found, idx, keys, at) && Ascending(keys + [key]) && At(Lookup(idx, key), at) == Some(f)
    ensures FoundAmong(found + [(key, f)], idx, keys + [key], at)
  {
    var all := found + [(key, f)];
    forall i | 0 <= i < |found| ensures Less(found[i].0, key) {
      var j :| 0 <= j < |keys| && keys[j] == found[i].0;
      assert Less((keys + [key])[j], (keys + [key])[|keys|]);
    }
    forall k | k in keys + [key] && At(Lookup(idx, k), at).Some? ensures HasKey(all, k) {
      if k in keys {
        assert HasKey(found, k);
        var i :| 0 <= i < |found| && found[i].0 == k;
        assert all[i].0 == k;
      } else {
        assert all[|found|].0 == k;
      }
    }
  }

  lemma {:induction false} FindEachMeans(idx: IndexMap, keys: seq<bytes>, at: nat)
    requires Ascending(keys)
    ensures FoundAmong(FindEach(idx, keys, at), idx, keys, at)
  {
    if keys != [] {
      var front, key := Front(keys), Last(keys);
      FindEachMeans(idx, front, at);
      assert keys == front + [key];
      match At(Lookup(idx, key), at)
      case None =>
      case Some(f) => FoundOneMore(FindEach(idx, front, at), idx, front, key, f, at);
    }
  }

  /** An index entry whose record is stored, and the row it makes. */
  ghost predicate Fetchable(backend: Map, entry: (bytes, Found), row: Row) {
    var (key, f) := entry;
    && f.modified.Valid() && BackendKey(f.modified, false) in backend
    && DecodeRecord(backend[BackendKey(f.modified, false)]) == Some((key, row.value))
    && row == Row(key, row.value, f.created, f.modified, f.version)
  }

  lemma {:induction false} FetchEach(backend: Map, found: seq<(bytes, Found)>, rows: seq<Row>)
    requires |found| == |rows| && forall i :: 0 <= i < |found| ==> Fetchable(backend, found[i], rows[i])
    ensures Fetch(backend, found) == Ok(rows)
  {
    if found != [] {
      assert Fetchable(backend, found[|found| - 1], rows[|rows| - 1]);
      FetchEach(backend, Front(found), Front(rows));
      assert rows == Front(rows) + [Last(rows)];
    }
  }

  /** A read fails as corrupt exactly if a record it needs is missing or malformed. */
  lemma {:induction false} FetchRefuses(backend: Map, found: seq<(bytes, Found)>)
    ensures Fetch(backend, found).Err? <==>
              exists i :: 0 <= i < |found| &&
                var r := found[i].1.modified;
                !r.Valid() || BackendKey(r, false) !in backend || DecodeRecord(backend[BackendKey(r, false)]).None?
    ensures Fetch(backend, found).Err? ==> Fetch(backend, found) == Err(Corrupt)
  {
    hide BackendKey, DecodeRecord;
    if found != [] {
      var front := Front(found);
      FetchRefuses(backend, front);
      assert Last(found) == found[|front|] && forall i :: 0 <= i < |front| ==> front[i] == found[i];
    }
  }

  lemma FetchableLimited(backend: Map, found: seq<(bytes, Found)>, rows: seq<Row>, limit: Option<nat>)
    requires |found| == |rows| && forall i :: 0 <= i < |found| ==> Fetchable(backend, found[i], rows[i])
    ensures Fetch(backend, Limited(found, limit)) == Ok(Limited(rows, limit))
  {
    FetchEach(backend, Limited(found, limit), Limited(rows, limit));
  }

  /** Whatever the index finds is in the backend, with the replayed value. */
  lemma FoundIsReplayed(s: Store, log: seq<Event>, w: nat, key: bytes, f: Found, at: nat)
    requires Readable(s, log, w) && w <= at && At(Lookup(s.index, key), at) == Some(f)
    ensures Replay(log, key, at).Some?
    ensures Fetchable(s.backend, (key, f), RowOf(key, Replay(log, key, at).value))
  {
    RisingIsOrdered(log);
    TrimmedReadIsReplay(log, w, key, at);
    FoundIsStored(s, log, w, key, at);
  }

  function ReplayedRow(log: seq<Event>, key: bytes, at: nat): Row
    requires Replay(log, key, at).Some?
  {
    RowOf(key, Replay(log, key, at).value)
  }

  /** The rows of what the index found, as replay gives them. */
  ghost predicate RowsFor(backend: Map, found: seq<(bytes, Found)>, rows: seq<Row>, log: seq<Event>, at: nat) {
    |found| == |rows| && forall i :: 0 <= i < |found| ==>
      && Replay(log, found[i].0, at).Some?
      && rows[i] == ReplayedRow(log, found[i].0, at)
      && Fetchable(backend, found[i], rows[i])
  }

  lemma RowsExist(s: Store, log: seq<Event>, w: nat, found: seq<(bytes, Found)>, at: nat) returns (rows: seq<Row>)
    requires Readable(s, log, w) && w <= at
    requires forall i :: 0 <= i < |found| ==> At(Lookup(s.index, found[i].0), at) == Some(found[i].1)
    ensures RowsFor(s.backend, found, rows, log, at)
  {
    forall i | 0 <= i < |found|
      ensures Replay(log, found[i].0, at).Some?
      ensures Fetchable(s.backend, found[i], ReplayedRow(log, found[i].0, at))
    {
      FoundIsReplayed(s, log, w, found[i].0, found[i].1, at);
    }
    rows := seq(|found|, i requires 0 <= i < |found| => ReplayedRow(log, found[i].0, at));
  }

  lemma FoundReadsBack(s: Store, log: seq<Event>, w: nat, range: Range, at: nat, found: seq<(bytes, Found)>,
                       rows: seq<Row>)
    requires Readable(s, log, w) && w <= at
    requires FoundAmong(found, s.index, IndexKeysIn(s.index, range), at)
    requires RowsFor(s.backend, found, rows, log, at)
    ensures ReadsBack(rows, log, range, at)
  {
    var keys := IndexKeysIn(s.index, range);
    forall i | 0 <= i < |rows| ensures rows[i].key == found[i].0 && range.Contains(rows[i].key) {
      assert found[i].0 in keys;
    }
    forall k | range.Contains(k) && Replay(log, k, at).Some? ensures exists i :: 0 <= i < |rows| && rows[i].key == k {
      FoundIsStored(s, log, w, k, at);
      assert k in keys;
      assert HasKey(found, k);
      var i :| 0 <= i < |found| && found[i].0 == k;
      assert rows[i].key == k;
    }
  }

  /** An answer that is the replayed keyspace within the range, its first rows up to the limit. */
  ghost predicate AnswersAsReplay(answer: Result<seq<Row>, Error>, log: seq<Event>, range: Range, at: nat,
                                  limit: Option<nat>)
  {
    answer.Ok? &&
    exists all :: ReadsBack(all, log, range, at) && answer.value <= all &&
                  |answer.value| == if limit.Some? && limit.value < |all| then limit.value else |all|
  }

  /**
   A read names a revision, or means the current one. Past the current one and before the
   watermark it is refused; otherwise, from `w` on, it answers with the keyspace as
   replayed up to then, and never reaches the missing-record error.
   */
  lemma ReadIsReplayedKeyspace(s: Store, log: seq<Event>, w: nat, range: Range, at: Option<nat>, limit: Option<nat>)
    requires Readable(s, log, w) && !range.Panics()
    ensures var n := if at.Some? then at.value else s.current.main;
            && (s.current.main < n ==> RangeOf(s, range, at, limit) == Err(FutureRevision(n, s.current.main)))
            && (n <= s.current.main && n < s.compacted ==>
                  RangeOf(s, range, at, limit) == Err(Compacted(n, s.compacted)))
            && (s.compacted <= n <= s.current.main && w <= n ==>
                  AnswersAsReplay(RangeOf(s, range, at, limit), log, range, n, limit))
  {
    var n := if at.Some? then at.value else s.current.main;
    if s.compacted <= n <= s.current.main && w <= n {
      ReplayIsRead(s, log, w, range, n, limit);
    }
  }

  lemma ReplayIsRead(s: Store, log: seq<Event>, w: nat, range: Range, n: nat, limit: Option<nat>)
    requires Readable(s, log, w) && w <= n && !range.Panics()
    ensures var found := Limited(FindEach(s.index, IndexKeysIn(s.index, range), n), limit);
            AnswersAsReplay(Fetch(s.backend, found), log, range, n, limit)
  {
    var found := FindEach(s.index, IndexKeysIn(s.index, range), n);
    SortedAscends(set k | k in s.index && range.Contains(k));
    FindEachMeans(s.index, IndexKeysIn(s.index, range), n);
    var rows := RowsExist(s, log, w, found, n);
    FoundReadsBack(s, log, w, range, n, found, rows);
    FetchEach(s.backend, found, rows);
    FetchableLimited(s.backend, found, rows, limit);
  }

  /** The answer is determined: two listings that read back the same log are equal. */
  lemma ReadsBackUnique(a: seq<Row>, b: seq<Row>, log: seq<Event>, range: Range, at: nat)
    requires ReadsBack(a, log, range, at) && ReadsBack(b, log, range, at)
    ensures a == b
  {
    var ka := seq(|a|, i requires 0 <= i < |a| => a[i].key);
    var kb := seq(|b|, i requires 0 <= i < |b| => b[i].key);
    forall k ensures k in ka <==> k in kb {
      if k in ka {
        var i :| 0 <= i < |a| && a[i].key == k;
        var j :| 0 <= j < |b| && b[j].key == k;
        assert kb[j] == k;
      }
      if k in kb {
        var j :| 0 <= j < |b| && b[j].key == k;
        var i :| 0 <= i < |a| && a[i].key == k;
        assert ka[i] == k;
      }
    }
    AscendingUnique(ka, kb);
    forall i | 0 <= i < |a| ensures a[i] == b[i] {
      assert ka[i] == kb[i];
    }
  }
}
