/** The store as an object over a transactional engine, operation by operation. */
module KvStores {
  import opened Wrappers
  import opened Sequences
  import opened ByteStrings
  import opened Revisions
  import opened Mutations
  import opened StoredRecord
  import opened OrderedScan
  import opened KeyBounds
  import opened Histories
  import opened Indexes
  import opened Stores
  import opened StoreInvariant
  import opened StoreCompaction

  const SCAN_PAGE: nat := 1024
  const COMPACT_CHUNK: nat := 1024

  /**
   An ordered keyspace with atomic commits. `commits` lists the states a crash may fall
   back to, oldest first; the last is what transactions see.
   */
  class Engine {
    var commits: seq<Map>

    constructor (initial: Map)
      ensures commits == [initial]
    {
      commits := [initial];
    }

    function Committed(): Map
      requires commits != []
      reads this
    {
      Last(commits)
    }

    /** An ordinary commit is visible at once, and durable no sooner than a later durable one. */
    method Commit(txn: Map, ok: bool) returns (done: bool)
      modifies this
      ensures done == ok && commits == if ok then old(commits) + [txn] else old(commits)
    {
      if ok {
        commits := commits + [txn];
      }
      return ok;
    }

    /** A durable commit leaves nothing older to fall back to; a failed one may still be visible. */
    method CommitDurable(txn: Map, ok: bool, visible: bool) returns (done: bool)
      modifies this
      ensures done == ok
      ensures commits == if ok then [txn] else if visible then old(commits) + [txn] else old(commits)
    {
      if ok {
        commits := [txn];
      } else if visible {
        commits := commits + [txn];
      }
      return ok;
    }
  }

  function RevisionsOf(events: seq<Event>): seq<Revision> {
    seq(|events|, i requires 0 <= i < |events| => events[i].rev)
  }

  // ---- Facts every operation keeps ---------------------------------------------------

  ghost predicate RevsValid(idx: IndexMap) {
    forall k, r :: k in idx && r in AllRevs(idx[k]) ==> r.Valid()
  }

  lemma RecordRevsValid(idx: IndexMap, m: Mutation, r: Revision)
    requires RevsValid(idx) && r.Valid()
    ensures RevsValid(IndexRecord(idx, m, r))
  {
    var next := IndexRecord(idx, m, r);
    RecordAddsRevision(Lookup(idx, m.key), m, r);
    forall k, x | k in next && x in AllRevs(next[k]) ensures x.Valid() {
      if k == m.key {
        assert next[k] == Record(Lookup(idx, k), m, r);
      } else {
        assert x in AllRevs(idx[k]);
      }
    }
  }

  lemma TrimRevsValid(idx: IndexMap, at: nat)
    requires RevsValid(idx)
    ensures RevsValid(TrimIndex(idx, at)) && AllValid(DroppedAt(idx, at))
  {
    forall k, r | k in idx && (r in AllRevs(Trim(idx[k], at)) || r in Dropped(idx[k], at)) ensures r.Valid() {
      DroppedComplementsTrim(idx[k], at);
      InMultiset(Dropped(idx[k], at), r);
    }
    var dropped := DroppedAt(idx, at);
    forall i | 0 <= i < |dropped| ensures dropped[i].Valid() {
      DroppedBelongs(idx, Sorted(idx.Keys), at, dropped[i]);
    }
  }

  lemma {:induction false} RecordedKeepsFacts(idx: IndexMap, current: Revision, batch: seq<Mutation>)
    requires ValidIndex(idx, current.main) && RevsValid(idx) && current.main + |batch| <= I64_MAX
    ensures var idx' := Recorded(idx, EventsAfter(current, batch));
            ValidIndex(idx', current.main + |batch|) && RevsValid(idx')
  {
    if batch != [] {
      var events := EventsAfter(current, batch);
      assert Front(events) == EventsAfter(current, Front(batch));
      RecordedKeepsFacts(idx, current, Front(batch));
      var before := Recorded(idx, Front(events));
      RecordValid(before, Last(events).m, Last(events).rev, current.main + |batch| - 1);
      RecordRevsValid(before, Last(events).m, Last(events).rev);
    }
  }

  /** Records in ascending key order. */
  ghost predicate InOrder(records: seq<(bytes, bytes)>) {
    forall i, j {:trigger Less(records[i].0, records[j].0)} :: 0 <= i < j < |records| ==>
      Less(records[i].0, records[j].0)
  }

  /** Revisions parsed from ascending keys never go back. */
  lemma ParsedInOrder(a: bytes, b: bytes)
    requires Less(a, b) && ParseKey(a).Some? && ParseKey(b).Some?
    ensures var (r, s) := (ParseKey(a).value.0, ParseKey(b).value.0);
            r.Valid() && s.Valid() && (r == s || r.Before(s))
  {
    var ((r, t), (s, u)) := (ParseKey(a).value, ParseKey(b).value);
    KeyRoundTrip(r, t, a);
    KeyRoundTrip(s, u, b);
    if r != s {
      KeyOrder(r, t, s, u);
    }
  }

  /** Whatever a rebuild accepts is a well-formed index, up to the latest revision. */
  lemma {:induction false} RebuildKeepsFacts(records: seq<(bytes, bytes)>)
    requires InOrder(records) && Rebuild(records).Ok?
    ensures var (idx, current) := Rebuild(records).value;
            && ValidIndex(idx, current.main) && RevsValid(idx) && current.Valid()
            && (records != [] ==> ParseKey(Last(records).0).Some? && current == ParseKey(Last(records).0).value.0)
  {
    if records != [] {
      var front := Front(records);
      RebuildKeepsFacts(front);
      var (idx, current) := Rebuild(front).value;
      var (r, t) := ParseKey(Last(records).0).value;
      KeyRoundTrip(r, t, Last(records).0);
      if front != [] {
        assert Less(records[|front| - 1].0, records[|front|].0);
        ParsedInOrder(Last(front).0, Last(records).0);
      }
      var (key, value) := DecodeRecord(Last(records).1).value;
      var m := if t then Delete(key) else Mutation.Put(key, value);
      RecordValid(idx, m, r, current.main);
      RecordRevsValid(idx, m, r);
    }
  }

  lemma {:induction false} RebuildFails(records: seq<(bytes, bytes)>, more: seq<(bytes, bytes)>)
    requires Rebuild(records) == Err(Corrupt)
    ensures Rebuild(records + more) == Err(Corrupt)
  {
    if more == [] {
      assert records + more == records;
    } else {
      assert Front(records + more) == records + Front(more);
      RebuildFails(records, Front(more));
    }
  }

  lemma RecordsInOrder(backend: Map)
    ensures InOrder(Records(backend))
  {
    var keys, records := RecordKeys(backend), Records(backend);
    SortedAscends(set k | k in backend && [REVISION_PREFIX] <= k);
    forall i, j | 0 <= i < j < |records| ensures Less(records[i].0, records[j].0) {
      assert Less(keys[i], keys[j]);
    }
  }

  /** The pages of a scan over every revision record are the records, in key order. */
  lemma RecordsArePaged(backend: Map, range: Range)
    requires !range.Panics() && forall k :: range.Contains(k) <==> [REVISION_PREFIX] <= k
    ensures PagedScan(backend, range, SCAN_PAGE) == Records(backend)
  {
    PagedScanIsScan(backend, range, SCAN_PAGE);
    KeysInMap(backend, range);
    SortedAscends(set k | k in backend && [REVISION_PREFIX] <= k);
    AscendingUnique(KeysIn(backend, range), RecordKeys(backend));
  }

  lemma RecordedNext(idx: IndexMap, events: seq<Event>, i: nat)
    requires i < |events|
    ensures Recorded(idx, events[..i + 1]) == IndexRecord(Recorded(idx, events[..i]), events[i].m, events[i].rev)
  {
    Appended(events, i);
  }

  lemma {:induction false} FetchFails(backend: Map, found: seq<(bytes, Found)>, n: nat)
    requires n <= |found| && Fetch(backend, found[..n]) == Err(Corrupt)
    ensures Fetch(backend, found) == Err(Corrupt)
  {
    if n == |found| {
      assert found[..n] == found;
    } else {
      assert Front(found)[..n] == found[..n];
      FetchFails(backend, Front(found), n);
    }
  }

  lemma Appended<T>(s: seq<T>, i: nat)
    requires i < |s|
    ensures s[..i + 1] == s[..i] + [s[i]] && Front(s[..i + 1]) == s[..i] && Last(s[..i + 1]) == s[i]
  {
  }

  // ---- The store ----------------------------------------------------------------------

  class KvStore {
    const engine: Engine
    const index: Index
    var current: Revision
    var compacted: nat
    var applied: nat

    function View(): Store
      requires engine.commits != []
      reads this, engine, index
    {
      Store(engine.Committed(), index.keys, current, compacted, applied)
    }

    ghost predicate Valid()
      reads this, engine, index
    {
      && engine.commits != []
      && ValidIndex(index.keys, current.main) && RevsValid(index.keys)
      && current.Valid()
      && applied < U64_END
    }

    constructor (engine: Engine, index: Index, current: Revision, applied: nat)
      ensures this.engine == engine && this.index == index
      ensures this.current == current && this.compacted == 0 && this.applied == applied
    {
      this.engine, this.index := engine, index;
      this.current, this.compacted, this.applied := current, 0, applied;
    }

    /** Opens a store over an engine, rebuilding the index from its records page by page. */
    static method Open(engine: Engine) returns (opened': Result<KvStore, Error>)
      requires engine.commits != []
      ensures unchanged(engine)
      ensures opened'.Err? <==> OpenOf(engine.Committed()).Err?
      ensures opened'.Err? ==> opened'.error == OpenOf(engine.Committed()).error
      ensures opened'.Ok? ==>
                && fresh(opened'.value) && fresh(opened'.value.index) && opened'.value.engine == engine
                && opened'.value.Valid() && Ok(opened'.value.View()) == OpenOf(engine.Committed())
    {
      var txn := engine.Committed();
      var position := AppliedIn(txn);
      if position.Err? {
        return Err(position.error);
      }
      var index := new Index();
      var rebuilt, current := Scan(txn, index);
      if !rebuilt {
        return Err(Corrupt);
      }
      RecordsInOrder(txn);
      RebuildKeepsFacts(Records(txn));
      if APPLIED_KEY in txn {
        Capacities();
        FromBigEndianBound(txn[APPLIED_KEY]);
      }
      var store := new KvStore(engine, index, current, position.value);
      return Ok(store);
    }

    /** The paging loop of `Open`: false if some record is not one this store writes. */
    static method Scan(txn: Map, index: Index) returns (ok: bool, current: Revision)
      requires index.keys == map[]
      modifies index
      ensures Rebuild(Records(txn)) == if ok then Ok((index.keys, current)) else Err(Corrupt)
    {
      hide Records, PagedScan, OrderedScan.Scan;
      current := ZERO;
      var bounds := AllRecords(txn);
      ghost var seen: seq<(bytes, bytes)> := [];
      ghost var left := PagedScan(txn, bounds.View(), SCAN_PAGE);
      while true
        invariant fresh(bounds) && !bounds.View().Panics()
        invariant left == PagedScan(txn, bounds.View(), SCAN_PAGE) && Records(txn) == seen + left
        invariant Rebuild(seen) == Ok((index.keys, current))
        decreases |left|
      {
        var page, later := NextPage(txn, bounds, left);
        if |page| == 0 {
          assert seen + [] == seen;
          return true, current;
        }
        assert seen + left == (seen + page) + later;
        ok, current := IndexPage(index, current, page, seen);
        if !ok {
          RebuildFails(seen + page, later);
          return;
        }
        seen, left := seen + page, later;
      }
    }

    /** Reads the next page of a scan and moves the bounds past it. */
    static method NextPage(txn: Map, bounds: Bounds, ghost left: seq<(bytes, bytes)>)
      returns (page: seq<(bytes, bytes)>, ghost later: seq<(bytes, bytes)>)
      requires !bounds.View().Panics() && left == PagedScan(txn, bounds.View(), SCAN_PAGE)
      modifies bounds
      ensures !bounds.View().Panics()
      ensures left == page + later && (page == [] ==> later == [])
      ensures later == PagedScan(txn, bounds.View(), SCAN_PAGE)
    {
      var range := bounds.View();
      page := OrderedScan.Scan(txn, range, Some(SCAN_PAGE));
      if |page| == 0 {
        return page, [];
      }
      PageShrinks(txn, range, page, SCAN_PAGE);
      later := PagedScan(txn, Past(range, page[|page| - 1].0), SCAN_PAGE);
      bounds.AdvancePast(page[|page| - 1].0);
    }

    /** Bounds covering every revision record. */
    static method AllRecords(ghost txn: Map) returns (bounds: Bounds)
      ensures fresh(bounds) && !bounds.View().Panics()
      ensures PagedScan(txn, bounds.View(), SCAN_PAGE) == Records(txn)
    {
      bounds := Bounds.Prefix([REVISION_PREFIX]);
      RecordsArePaged(txn, bounds.View());
    }

    /** Records one page of the scan in the index. */
    static method IndexPage(index: Index, before: Revision, page: seq<(bytes, bytes)>, ghost seen: seq<(bytes, bytes)>)
      returns (ok: bool, current: Revision)
      requires Rebuild(seen) == Ok((index.keys, before))
      modifies index
      ensures Rebuild(seen + page) == if ok then Ok((index.keys, current)) else Err(Corrupt)
    {
      hide ParseKey, DecodeRecord;
      current := before;
      ghost var done := seen;
      for i := 0 to |page|
        invariant done == seen + page[..i]
        invariant Rebuild(done) == Ok((index.keys, current))
      {
        AppendNext(seen, page, i);
        Snoc(done, page[i]);
        var (rawKey, rawValue) := page[i];
        var parsed := ParseKey(rawKey);
        var decoded := DecodeRecord(rawValue);
        if parsed.None? || decoded.None? {
          RebuildFails(done + [page[i]], page[i + 1..]);
          return false, current;
        }
        var (revision, tombstone) := parsed.value;
        var (key, _) := decoded.value;
        if tombstone {
          var _ := index.Tombstone(key, revision);
        } else {
          index.Put(key, revision);
        }
        current := current.Max(revision);
        done := done + [page[i]];
      }
      assert page[..|page|] == page;
      return true, current;
    }

    /** Applies a batch as one transaction, giving each mutation the next revision. */
    method Apply(batch: seq<Mutation>, upto: nat, commitOk: bool) returns (result: Result<seq<Revision>, Error>)
      requires Valid() && current.main + |batch| <= I64_MAX && upto < U64_END
      modifies this, engine, index
      ensures Valid()
      ensures result == if commitOk then Ok(RevisionsOf(EventsAfter(old(current), batch))) else Err(Storage)
      ensures View() == if commitOk then ApplyTo(old(View()), batch, upto) else old(View())
      ensures engine.commits == old(engine.commits) + if commitOk then [View().backend] else []
    {
      var revision, revisions, txn := Stage(engine.Committed(), current, batch);
      txn := txn[APPLIED_KEY := EncodePosition(upto)];
      var done := engine.Commit(txn, commitOk);
      if !done {
        return Err(Storage);
      }
      RecordedKeepsFacts(index.keys, current, batch);
      IndexBatch(index, current, batch, revisions);
      current := revision;
      applied := upto;
      return Ok(revisions);
    }

    /** Numbers a batch's mutations and buffers their records. */
    static method Stage(committed: Map, current: Revision, batch: seq<Mutation>)
      returns (revision: Revision, revisions: seq<Revision>, txn: Map)
      requires current.main + |batch| <= I64_MAX
      ensures var events := EventsAfter(current, batch);
              && ValidRevisions(events)
              && revision == (if events == [] then current else Last(events).rev)
              && revisions == RevisionsOf(events)
              && txn == WithRecords(committed, events)
    {
      hide BackendKey, EncodeRecord;
      ghost var events: seq<Event> := [];
      txn, revision, revisions := committed, current, [];
      for i := 0 to |batch|
        invariant |events| == i
        invariant forall j :: 0 <= j < i ==> events[j] == Event(Revision(current.main + j + 1, 0), batch[j])
        invariant ValidRevisions(events) && txn == WithRecords(committed, events)
        invariant revision.main == current.main + i
        invariant revision == if events == [] then current else Last(events).rev
        invariant revisions == RevisionsOf(events)
      {
        revision := revision.NextMain();
        var tombstone := batch[i].Delete?;
        txn := txn[BackendKey(revision, tombstone) := EncodeRecord(batch[i].key, batch[i].Payload())];
        revisions := revisions + [revision];
        Snoc(events, Event(revision, batch[i]));
        events := events + [Event(revision, batch[i])];
      }
      assert events == EventsAfter(current, batch);
    }

    /** Records a committed batch in the index. */
    static method IndexBatch(index: Index, ghost current: Revision, batch: seq<Mutation>, revisions: seq<Revision>)
      requires revisions == RevisionsOf(EventsAfter(current, batch))
      modifies index
      ensures index.keys == Recorded(old(index.keys), EventsAfter(current, batch))
    {
      ghost var events := EventsAfter(current, batch);
      for i := 0 to |batch|
        invariant index.keys == Recorded(old(index.keys), events[..i])
      {
        RecordedNext(old(index.keys), events, i);
        match batch[i] {
          case Put(key, value) => index.Put(key, revisions[i]);
          case Delete(key) => var _ := index.Tombstone(key, revisions[i]);
        }
      }
      assert events[..|batch|] == events;
    }

    /** Commits the applied position durably, making everything applied so far durable. */
    method Checkpoint(commitOk: bool, visible: bool) returns (result: Result<nat, Error>)
      requires Valid()
      modifies engine
      ensures Valid()
      ensures result == if commitOk then Ok(applied) else Err(Storage)
      ensures engine.commits ==
              if commitOk then [CheckpointOf(old(View())).backend]
              else old(engine.commits) + if visible then [CheckpointOf(old(View())).backend] else []
      ensures commitOk ==> AppliedIn(engine.Committed()) == Ok(applied)
    {
      var txn := engine.Committed()[APPLIED_KEY := EncodePosition(applied)];
      PositionRoundTrip(applied);
      var done := engine.CommitDurable(txn, commitOk, visible);
      if !done {
        return Err(Storage);
      }
      return Ok(applied);
    }

    /** Reads the keys in a range as they were at a revision. */
    method Range(range: Range, at: Option<nat>, limit: Option<nat>) returns (result: Result<seq<Row>, Error>)
      requires Valid() && !range.Panics()
      ensures result == RangeOf(View(), range, at, limit)
      ensures at.Some? && current.main < at.value ==> result == Err(FutureRevision(at.value, current.main))
      ensures at.Some? && at.value <= current.main && at.value < compacted ==>
                result == Err(Compacted(at.value, compacted))
      ensures result.Ok? && limit.Some? ==> |result.value| <= limit.value
    {
      var resolved := Resolve(View(), at);
      if resolved.Err? {
        return Err(resolved.error);
      }
      var visible := index.Range(range, resolved.value, current.main);
      result := FetchRows(engine.Committed(), visible, limit);
    }

    /** The loop that fetches each visible key's record, up to the limit. */
    static method FetchRows(txn: Map, visible: seq<(bytes, Found)>, limit: Option<nat>)
      returns (result: Result<seq<Row>, Error>)
      ensures result == Fetch(txn, Limited(visible, limit))
      ensures result.Ok? && limit.Some? ==> |result.value| <= limit.value
    {
      var records := [];
      ghost var wanted := Limited(visible, limit);
      for i := 0 to |visible|
        invariant i <= |wanted| && |records| == i
        invariant Fetch(txn, visible[..i]) == Ok(records)
      {
        if limit.Some? && |records| >= limit.value {
          assert visible[..i] == wanted;
          return Ok(records);
        }
        var (key, found) := visible[i];
        Appended(visible, i);
        assert visible[..i + 1] == wanted[..i + 1];
        if !found.modified.Valid() || BackendKey(found.modified, false) !in txn {
          FetchFails(txn, wanted, i + 1);
          return Err(Corrupt);
        }
        var decoded := DecodeRecord(txn[BackendKey(found.modified, false)]);
        if decoded.None? {
          FetchFails(txn, wanted, i + 1);
          return Err(Corrupt);
        }
        records := records + [Row(key, decoded.value.1, found.created, found.modified, found.version)];
      }
      assert visible[..|visible|] == wanted;
      return Ok(records);
    }

    /**
     Discards history below `at`, in chunks of one transaction each. The backend may fail
     after `chunks` of them, leaving the index trimmed and the watermark where it was.
     */
    method Compact(at: nat, chunks: Option<nat>) returns (result: Result<nat, Error>, ghost removed: nat)
      requires Valid()
      modifies this, engine, index
      ensures Valid()
      ensures old(current.main) < at ==> result == Err(FutureRevision(at, old(current.main)))
      ensures at <= old(current.main) && at < old(compacted) ==> result == Err(Compacted(at, old(compacted)))
      ensures old(current.main) < at || at < old(compacted) ==> View() == old(View())
      ensures old(compacted) <= at <= old(current.main) ==>
                && AllValid(DroppedAt(old(View()).index, at))
                && (result.Ok? ==>
                      && result.value == |DroppedAt(old(View()).index, at)|
                      && View() == CompactedTo(old(View()), at))
                && (result.Err? ==>
                      && result.error == Storage && chunks.Some?
                      && removed <= |DroppedAt(old(View()).index, at)|
                      && View() == CompactedPartly(old(View()), at, removed))
    {
      removed := 0;
      if at > current.main {
        return Err(FutureRevision(at, current.main)), 0;
      }
      if at < compacted {
        return Err(Compacted(at, compacted)), 0;
      }
      ghost var before := View();
      TrimRevsValid(index.keys, at);
      TrimIndexValid(index.keys, at, current.main);
      var dropped := index.Compact(at, current.main);
      var gone := RemoveChunks(dropped, chunks);
      removed := gone;
      if gone != |dropped| {
        return Err(Storage), gone;
      }
      assert dropped[..gone] == dropped;
      compacted := at;
      return Ok(|dropped|), gone;
    }

    /** Removes dropped records a chunk at a time, until a commit fails; returns how many went. */
    method RemoveChunks(dropped: seq<Revision>, chunks: Option<nat>) returns (removed: nat)
      requires engine.commits != [] && AllValid(dropped)
      modifies engine
      ensures removed <= |dropped| && (chunks.None? ==> removed == |dropped|)
      ensures engine.commits != []
      ensures engine.Committed() == WithoutRecords(old(engine.Committed()), dropped[..removed])
    {
      removed := 0;
      var committed := 0;
      ghost var before := engine.Committed();
      while removed < |dropped|
        invariant removed <= |dropped| && engine.commits != []
        invariant engine.Committed() == WithoutRecords(before, dropped[..removed])
        decreases |dropped| - removed
      {
        var end := if removed + COMPACT_CHUNK < |dropped| then removed + COMPACT_CHUNK else |dropped|;
        var txn := RemoveChunk(engine.Committed(), dropped, removed, end, before);
        var done := engine.Commit(txn, chunks != Some(committed));
        if !done {
          return;
        }
        removed, committed := end, committed + 1;
      }
    }

    static method RemoveChunk(committed: Map, dropped: seq<Revision>, from: nat, end: nat, ghost before: Map)
      returns (txn: Map)
      requires from <= end <= |dropped| && AllValid(dropped)
      requires committed == WithoutRecords(before, dropped[..from])
      ensures txn == WithoutRecords(before, dropped[..end])
    {
      txn := committed;
      for i := from to end
        invariant txn == WithoutRecords(before, dropped[..i])
      {
        Appended(dropped, i);
        txn := txn - {BackendKey(dropped[i], false)};
        txn := txn - {BackendKey(dropped[i], true)};
      }
    }
  }
}
