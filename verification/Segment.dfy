/**
 The segment a log appends to: what each append leaves in the file when writes stop
 short, rewinds fail, or flushes fail.
 */
module Segments {
  import opened Wrappers
  import opened Sequences
  import opened ByteStrings
  import opened Joined

  /**
   A segment file and its writer's view of it. `data` is all that may be in the file,
   `synced` how much of it a crash cannot take, `written` where the next record goes.
   */
  datatype SegmentState = SegmentState(data: bytes, synced: nat, written: nat, limit: nat, poisoned: bool)

  /** How a truncation ends: done and flushed, not done, or done with its flush failing. */
  datatype Truncation = Complete | Unchanged | Unflushed

  /** What goes wrong during one append. */
  datatype AppendFault =
    | NoFault
    | ShortWrite(landed: nat, rewind: Truncation)
    | FlushFails

  ghost predicate ValidSegment(s: SegmentState) {
    && s.synced <= |s.data| && s.written <= |s.data|
    && (!s.poisoned ==> s.written == |s.data|)
  }

  function Cut(b: bytes, n: nat): bytes {
    if n < |b| then b[..n] else b
  }

  predicate AppendOk(s: SegmentState, fault: AppendFault) {
    !s.poisoned && fault.NoFault?
  }

  function AppendTo(s: SegmentState, b: bytes, fault: AppendFault): SegmentState {
    if s.poisoned then s
    else
      match fault
      case ShortWrite(n, Complete) => s.(synced := s.written)
      case ShortWrite(n, Unchanged) => s.(data := s.data + Cut(b, n), poisoned := true)
      case ShortWrite(n, Unflushed) => s.(poisoned := true)
      case FlushFails => s.(data := s.data + b, written := s.written + |b|)
      case NoFault => s.(data := s.data + b, written := s.written + |b|, synced := |s.data| + |b|)
  }

  // ---- Any sequence of appends ------------------------------------------------------

  datatype Attempt = Attempt(batch: bytes, fault: AppendFault)

  function RunAppends(s: SegmentState, attempts: seq<Attempt>): SegmentState {
    if attempts == [] then s
    else AppendTo(RunAppends(s, Front(attempts)), Last(attempts).batch, Last(attempts).fault)
  }

  /** The batches whose append reported success, in order. */
  function Acknowledged(s: SegmentState, attempts: seq<Attempt>): seq<bytes> {
    if attempts == [] then []
    else
      Acknowledged(s, Front(attempts)) +
      if AppendOk(RunAppends(s, Front(attempts)), Last(attempts).fault) then [Last(attempts).batch] else []
  }

  datatype Landing = Landing(batch: bytes, acknowledged: bool)

  /** The batches the file holds whole, in order, and whether each was acknowledged. */
  function Landed(s: SegmentState, attempts: seq<Attempt>): seq<Landing> {
    if attempts == [] then []
    else
      var before := RunAppends(s, Front(attempts));
      Landed(s, Front(attempts)) +
      if before.poisoned || Last(attempts).fault.ShortWrite? then []
      else [Landing(Last(attempts).batch, Last(attempts).fault.NoFault?)]
  }

  function Batches(landed: seq<Landing>): seq<bytes> {
    seq(|landed|, i requires 0 <= i < |landed| => landed[i].batch)
  }

  function AcknowledgedAmong(landed: seq<Landing>): seq<bytes> {
    if landed == [] then []
    else AcknowledgedAmong(Front(landed)) + if Last(landed).acknowledged then [Last(landed).batch] else []
  }

  /** A torn tail: a prefix of one attempted batch, present only in a poisoned file. */
  ghost predicate TornTail(attempts: seq<Attempt>, tail: bytes) {
    exists i :: 0 <= i < |attempts| && attempts[i].fault.ShortWrite? && tail <= attempts[i].batch
  }

  lemma {:induction false} AppendsStayValid(s: SegmentState, attempts: seq<Attempt>)
    requires ValidSegment(s)
    ensures ValidSegment(RunAppends(s, attempts))
  {
    if attempts != [] {
      AppendsStayValid(s, Front(attempts));
    }
  }

  lemma NothingLanded()
    ensures Join(Batches([])) == [] && AcknowledgedAmong([]) == []
  {
  }

  lemma OneMoreLanded(landed: seq<Landing>, landing: Landing)
    ensures Join(Batches(landed + [landing])) == Join(Batches(landed)) + landing.batch
    ensures AcknowledgedAmong(landed + [landing]) ==
            AcknowledgedAmong(landed) + if landing.acknowledged then [landing.batch] else []
  {
    Snoc(landed, landing);
    assert Batches(landed + [landing]) == Batches(landed) + [landing.batch];
    JoinConcat(Batches(landed), [landing.batch]);
    JoinOne(landing.batch);
  }

  /**
   However the appends fail, the file stays a run of whole batches in order, among them
   every acknowledged one, followed, only once poisoned, by a prefix of one failed batch.
   */
  lemma {:induction false} FileHoldsWholeBatches(s: SegmentState, attempts: seq<Attempt>) returns (tail: bytes)
    requires ValidSegment(s) && !s.poisoned
    ensures var end := RunAppends(s, attempts);
            && end.data == s.data + Join(Batches(Landed(s, attempts))) + tail
            && end.written == |s.data| + |Join(Batches(Landed(s, attempts)))|
            && (if end.poisoned then TornTail(attempts, tail) else tail == [])
    ensures Acknowledged(s, attempts) == AcknowledgedAmong(Landed(s, attempts))
  {
    hide Join, Batches, AcknowledgedAmong;
    tail := [];
    NothingLanded();
    if attempts != [] {
      var front, a := Front(attempts), Last(attempts);
      var before, landed := RunAppends(s, front), Landed(s, front);
      tail := FileHoldsWholeBatches(s, front);
      AppendsStayValid(s, front);
      if before.poisoned {
        var i :| 0 <= i < |front| && front[i].fault.ShortWrite? && tail <= front[i].batch;
        assert attempts[i] == front[i];
        assert Landed(s, attempts) == landed;
      } else if a.fault.ShortWrite? {
        assert Landed(s, attempts) == landed;
        if a.fault.rewind.Unchanged? {
          tail := Cut(a.batch, a.fault.landed);
          assert attempts[|front|] == a;
        }
      } else {
        OneMoreLanded(landed, Landing(a.batch, a.fault.NoFault?));
      }
    }
  }

  /** Whatever is appended after a failed rewind, the file no longer changes. */
  lemma {:induction false} PoisonIsFinal(s: SegmentState, attempts: seq<Attempt>)
    requires s.poisoned
    ensures RunAppends(s, attempts) == s && Acknowledged(s, attempts) == []
  {
    if attempts != [] {
      PoisonIsFinal(s, Front(attempts));
    }
  }

  /** Acknowledged bytes are durable: nothing acknowledged lies past the synced point. */
  lemma {:induction false} AcknowledgedIsSynced(s: SegmentState, attempts: seq<Attempt>)
    requires ValidSegment(s) && attempts != []
    requires AppendOk(RunAppends(s, Front(attempts)), Last(attempts).fault)
    ensures var end := RunAppends(s, attempts);
            end.synced == end.written == |end.data|
  {
    AppendsStayValid(s, Front(attempts));
  }

  /** When a torn write was rewound, it left nothing, and nothing is unflushed. */
  lemma {:induction false} RewoundIsSynced(s: SegmentState, attempts: seq<Attempt>)
    requires ValidSegment(s) && attempts != [] && !RunAppends(s, Front(attempts)).poisoned
    requires Last(attempts).fault.ShortWrite? && Last(attempts).fault.rewind.Complete?
    ensures var before, end := RunAppends(s, Front(attempts)), RunAppends(s, attempts);
            end.data == before.data && end.synced == end.written == |end.data| && !end.poisoned
  {
    AppendsStayValid(s, Front(attempts));
  }

  // ---- The segment as an object -------------------------------------------------------

  /** An open file whose writes, flushes and truncations may fail. */
  class Sink {
    var data: bytes
    var synced: nat

    constructor (data: bytes)
      ensures this.data == data && synced == |data|
    {
      this.data, synced := data, |data|;
    }

    /** Appends `b`, or only its first bytes if the write stops short. */
    method WriteAll(b: bytes, short: Option<nat>) returns (ok: bool)
      modifies this
      ensures ok == short.None? && synced == old(synced)
      ensures data == old(data) + if short.None? then b else Cut(b, short.value)
    {
      data := data + if short.None? then b else Cut(b, short.value);
      return short.None?;
    }

    method SyncData(fails: bool) returns (ok: bool)
      modifies this
      ensures ok == !fails && data == old(data)
      ensures synced == if fails then old(synced) else |data|
    {
      if !fails {
        synced := |data|;
      }
      return !fails;
    }

    /** Discards everything past `len` and flushes, unless one of the two fails. */
    method Truncate(len: nat, end: Truncation) returns (ok: bool)
      requires len <= |data|
      modifies this
      ensures ok == end.Complete?
      ensures data == if end.Unchanged? then old(data) else old(data)[..len]
      ensures synced == match end
                        case Complete => len
                        case Unchanged => old(synced)
                        case Unflushed => Lesser(old(synced), len)
    {
      if end.Unchanged? {
        return false;
      }
      data := data[..len];
      synced := if end.Complete? then len else Lesser(synced, len);
      return end.Complete?;
    }
  }

  function Lesser(a: nat, b: nat): nat {
    if a < b then a else b
  }

  class Segment {
    const sink: Sink
    const limit: nat
    var written: nat
    var poisoned: bool

    function View(): SegmentState
      reads this, sink
    {
      SegmentState(sink.data, sink.synced, written, limit, poisoned)
    }

    /** An empty segment. */
    constructor Create(limit: nat)
      ensures fresh(sink) && View() == SegmentState([], 0, 0, limit, false)
    {
      sink := new Sink([]);
      this.limit, written, poisoned := limit, 0, false;
    }

    constructor (sink: Sink, written: nat, limit: nat)
      ensures this.sink == sink && this.limit == limit && this.written == written && !poisoned
    {
      this.sink, this.limit := sink, limit;
      this.written, poisoned := written, false;
    }

    /** Reopens a file for appending, discarding anything past `valid`. */
    static method Reopen(sink: Sink, valid: nat, limit: nat, end: Truncation) returns (segment: Option<Segment>)
      requires valid <= |sink.data|
      modifies sink
      ensures segment.Some? <==> end.Complete?
      ensures sink.data == if end.Unchanged? then old(sink.data) else old(sink.data)[..valid]
      ensures segment.Some? ==>
                && fresh(segment.value) && segment.value.sink == sink
                && segment.value.View() == SegmentState(old(sink.data)[..valid], valid, valid, limit, false)
    {
      var ok := sink.Truncate(valid, end);
      if !ok {
        return None;
      }
      var reopened := new Segment(sink, valid, limit);
      return Some(reopened);
    }

    predicate IsFull()
      reads this
    {
      written >= limit
    }

    /** Appends `b` and flushes it, rewinding a write that stops short. */
    method Append(b: bytes, fault: AppendFault) returns (ok: bool)
      requires ValidSegment(View())
      modifies this, sink
      ensures View() == AppendTo(old(View()), b, fault) && ValidSegment(View())
      ensures ok == AppendOk(old(View()), fault)
    {
      if poisoned {
        return false;
      }
      var complete := sink.WriteAll(b, if fault.ShortWrite? then Some(fault.landed) else None);
      if !complete {
        var rewound := sink.Truncate(written, fault.rewind);
        if !rewound {
          poisoned := true;
        }
        return false;
      }
      written := written + |b|;
      ok := sink.SyncData(fault.FlushFails?);
    }
  }
}
