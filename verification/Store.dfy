/**
 The revision-indexed store as a value: what applying, compacting, checkpointing,
 reading and reopening do to its backend records, index and counters.
 */
module Stores {
  import opened Wrappers
  import opened Sequences
  import opened ByteStrings
  import opened Revisions
  import opened Mutations
  import opened StoredRecord
  import opened OrderedScan
  import opened Histories
  import opened Indexes

  datatype Store = Store(backend: Map, index: IndexMap, current: Revision, compacted: nat, applied: nat)

  datatype Error =
    | Compacted(requested: nat, watermark: nat)
    | FutureRevision(requested: nat, current: nat)
    | Corrupt
    | Storage

  datatype Row = Row(key: bytes, value: bytes, created: Revision, modified: Revision, version: int)

  // ---- Applying a batch -------------------------------------------------------

  /** The events a batch becomes: each mutation takes the next revision, in order. */
  function EventsAfter(current: Revision, batch: seq<Mutation>): (events: seq<Event>)
    ensures |events| == |batch|
    ensures forall i :: 0 <= i < |batch| ==> events[i] == Event(Revision(current.main + i + 1, 0), batch[i])
  {
    seq(|batch|, i requires 0 <= i < |batch| => Event(Revision(current.main + i + 1, 0), batch[i]))
  }

  function Key(e: Event): bytes
    requires e.rev.Valid()
  {
    BackendKey(e.rev, e.m.Delete?)
  }

  function Value(e: Event): bytes {
    EncodeRecord(e.m.key, e.m.Payload())
  }

  ghost predicate ValidRevisions(log: seq<Event>) {
    forall i :: 0 <= i < |log| ==> log[i].rev.Valid()
  }

  function WithRecords(backend: Map, events: seq<Event>): Map
    requires ValidRevisions(events)
  {
    if events == [] then backend
    else WithRecords(backend, Front(events))[Key(Last(events)) := Value(Last(events))]
  }

  function Recorded(idx: IndexMap, events: seq<Event>): IndexMap {
    if events == [] then idx
    else IndexRecord(Recorded(idx, Front(events)), Last(events).m, Last(events).rev)
  }

  function ApplyTo(s: Store, batch: seq<Mutation>, upto: nat): Store
    requires s.current.main + |batch| <= I64_MAX && upto < U64_END
  {
    var events := EventsAfter(s.current, batch);
    Store(WithRecords(s.backend, events)[APPLIED_KEY := EncodePosition(upto)],
          Recorded(s.index, events),
          if events == [] then s.current else Last(events).rev,
          s.compacted,
          upto)
  }

  /** A durable commit that rewrites only the applied position. */
  function CheckpointOf(s: Store): Store
    requires s.applied < U64_END
  {
    s.(backend := s.backend[APPLIED_KEY := EncodePosition(s.applied)])
  }

  // ---- Compacting ---------------------------------------------------------------

  /** Removes both keys a record of each revision could be stored under. */
  function WithoutRecords(backend: Map, revs: seq<Revision>): Map
    requires forall i :: 0 <= i < |revs| ==> revs[i].Valid()
  {
    if revs == [] then backend
    else WithoutRecords(backend, Front(revs)) - {BackendKey(Last(revs), false), BackendKey(Last(revs), true)}
  }

  function DroppedAt(idx: IndexMap, at: nat): seq<Revision> {
    DroppedFrom(idx, Sorted(idx.Keys), at)
  }

  function CompactRefusal(s: Store, at: nat): Option<Error> {
    if at > s.current.main then Some(FutureRevision(at, s.current.main))
    else if at < s.compacted then Some(Compacted(at, s.compacted))
    else None
  }

  // ---- Reading ------------------------------------------------------------------

  function Resolve(s: Store, at: Option<nat>): Result<nat, Error> {
    var at := if at.Some? then at.value else s.current.main;
    if at > s.current.main then Err(FutureRevision(at, s.current.main))
    else if at < s.compacted then Err(Compacted(at, s.compacted))
    else Ok(at)
  }

  /** The rows for what the index found, each value fetched from its backend record. */
  function Fetch(backend: Map, found: seq<(bytes, Found)>): Result<seq<Row>, Error> {
    if found == [] then Ok([])
    else
      match Fetch(backend, Front(found))
      case Err(e) => Err(e)
      case Ok(rows) =>
        var (key, f) := Last(found);
        if !f.modified.Valid() || BackendKey(f.modified, false) !in backend then Err(Corrupt)
        else
          match DecodeRecord(backend[BackendKey(f.modified, false)])
          case None => Err(Corrupt)
          case Some((_, value)) => Ok(rows + [Row(key, value, f.created, f.modified, f.version)])
  }

  function RangeOf(s: Store, range: Range, at: Option<nat>, limit: Option<nat>): Result<seq<Row>, Error> {
    match Resolve(s, at)
    case Err(e) => Err(e)
    case Ok(at) => Fetch(s.backend, Limited(FindEach(s.index, IndexKeysIn(s.index, range), at), limit))
  }

  // ---- Reopening ------------------------------------------------------------------

  function AppliedIn(backend: Map): Result<nat, Error> {
    if APPLIED_KEY !in backend then Ok(0)
    else
      match DecodePosition(backend[APPLIED_KEY])
      case Some(n) => Ok(n)
      case None => Err(Corrupt)
  }

  /** The keys of every revision record, ascending. */
  function RecordKeys(backend: Map): seq<bytes> {
    Sorted(set k | k in backend && [REVISION_PREFIX] <= k)
  }

  /** Every revision record, in key order. */
  function Records(backend: Map): seq<(bytes, bytes)> {
    var keys := RecordKeys(backend);
    assert forall i :: 0 <= i < |keys| ==> keys[i] in keys;
    Pairs(backend, keys)
  }

  /** The index and latest revision that replaying stored records in order builds. */
  function Rebuild(records: seq<(bytes, bytes)>): Result<(IndexMap, Revision), Error> {
    if records == [] then Ok((map[], ZERO))
    else
      match Rebuild(Front(records))
      case Err(e) => Err(e)
      case Ok((idx, current)) =>
        match ParseKey(Last(records).0)
        case None => Err(Corrupt)
        case Some((r, tombstone)) =>
          match DecodeRecord(Last(records).1)
          case None => Err(Corrupt)
          case Some((key, value)) =>
            Ok((IndexRecord(idx, if tombstone then Delete(key) else Put(key, value), r), current.Max(r)))
  }

  function OpenOf(backend: Map): Result<Store, Error> {
    match AppliedIn(backend)
    case Err(e) => Err(e)
    case Ok(applied) =>
      match Rebuild(Records(backend))
      case Err(e) => Err(e)
      case Ok((idx, current)) => Ok(Store(backend, idx, current, 0, applied))
  }

  // ---- Batching is unobservable ----------------------------------------------------

  lemma {:induction false} WithRecordsConcat(backend: Map, a: seq<Event>, b: seq<Event>)
    requires ValidRevisions(a + b)
    ensures ValidRevisions(a) && ValidRevisions(b)
    ensures WithRecords(backend, a + b) == WithRecords(WithRecords(backend, a), b)
  {
    assert forall i :: 0 <= i < |a| ==> a[i] == (a + b)[i];
    assert forall i :: 0 <= i < |b| ==> b[i] == (a + b)[|a| + i];
    if b == [] {
      assert a + b == a;
    } else {
      assert Front(a + b) == a + Front(b);
      WithRecordsConcat(backend, a, Front(b));
    }
  }

  lemma {:induction false} RecordedConcat(idx: IndexMap, a: seq<Event>, b: seq<Event>)
    ensures Recorded(idx, a + b) == Recorded(Recorded(idx, a), b)
  {
    if b == [] {
      assert a + b == a;
    } else {
      assert Front(a + b) == a + Front(b);
      RecordedConcat(idx, a, Front(b));
    }
  }

  /** Revision records never touch the applied-position marker. */
  lemma {:induction false} MarkerIsApart(backend: Map, events: seq<Event>, v: bytes)
    requires ValidRevisions(events)
    ensures WithRecords(backend[APPLIED_KEY := v], events) == WithRecords(backend, events)[APPLIED_KEY := v]
  {
    if events != [] {
      MarkerIsApart(backend, Front(events), v);
    }
  }

  /** Numbering two batches one after the other is numbering them as one. */
  lemma NumberingIsUnobservable(s: Store, b1: seq<Mutation>, b2: seq<Mutation>, mid: nat)
    requires s.current.main + |b1| <= I64_MAX && mid < U64_END
    ensures ApplyTo(s, b1, mid).current.main == s.current.main + |b1|
    ensures EventsAfter(s.current, b1 + b2)
            == EventsAfter(s.current, b1) + EventsAfter(ApplyTo(s, b1, mid).current, b2)
  {
  }

  /** Applying two batches one after the other is applying them as one. */
  lemma BatchingIsUnobservable(s: Store, b1: seq<Mutation>, b2: seq<Mutation>, mid: nat, upto: nat)
    requires s.current.main + |b1| + |b2| <= I64_MAX && mid < U64_END && upto < U64_END
    ensures ApplyTo(s, b1, mid).current.main == s.current.main + |b1|
    ensures ApplyTo(s, b1 + b2, upto) == ApplyTo(ApplyTo(s, b1, mid), b2, upto)
  {
    var first := ApplyTo(s, b1, mid);
    var e1, e2 := EventsAfter(s.current, b1), EventsAfter(first.current, b2);
    var both := EventsAfter(s.current, b1 + b2);
    NumberingIsUnobservable(s, b1, b2, mid);
    hide EventsAfter;
    WithRecordsConcat(s.backend, e1, e2);
    RecordedConcat(s.index, e1, e2);
    var marker := EncodePosition(mid);
    MarkerIsApart(WithRecords(s.backend, e1), e2, marker);
    assert WithRecords(first.backend, e2) == WithRecords(s.backend, both)[APPLIED_KEY := marker];
  }
}
