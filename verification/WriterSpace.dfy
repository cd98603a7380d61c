/**
 How much log automatic checkpoints let pile up: each finds something to free, and frees
 everything but the active segment, as long as batches are small beside the interval.
 */
module WriterSpace {
  import opened Wrappers
  import opened Sequences
  import opened ByteStrings
  import opened Revisions
  import opened Mutations
  import opened Frames
  import opened LogRecords
  import opened Segments
  import opened Recovery
  import opened Stores
  import opened LogMachine
  import LogStores
  import LogRuns
  import LogWitnesses
  import opened WriterRounds
  import opened WriterGuarantees

  /** No segment is named by a position the store has not reached. */
  ghost predicate Placed(m: Machine) {
    forall f :: f in m.Files() ==> f.first <= m.store.applied
  }

  /** While nothing is sealed the active segment holds all that was counted, and no checkpoint is due. */
  ghost predicate Behind(w: Service, interval: nat) {
    && Placed(w.m)
    && (w.m.sealed == [] ==> w.appended <= w.m.active.written && w.appended < interval)
  }

  /** Whatever a round's batch takes in the log. */
  predicate Fits(crc: Crc, requests: seq<Request>, max: nat) {
    var batch := MutationsOf(requests);
    AllEncodable(batch) ==> |EncodeAll(crc, batch)| <= max
  }

  // ---- One round ------------------------------------------------------------------------------------

  /** What retiring a batch does to the segments, and to the count of what was appended. */
  lemma RetiredMeans(crc: Crc, w: Service, requests: seq<Request>, fault: RetireFault)
    requires Room(w.m, |MutationsOf(requests)|) && requests != []
    ensures var r, m, batch := RetireRound(crc, w, requests, fault), w.m, MutationsOf(requests);
            && m.store.applied <= r.m.store.applied
            && if !LogRuns.Wrote(m, batch, fault) then
                 r.appended == w.appended && r.m.sealed == m.sealed && r.m.first == m.first && r.m.active == m.active
               else
                 var ready := LogRuns.ReadyFor(m);
                 && r.m.sealed == ready.sealed && r.m.first == ready.first
                 && r.m.active == AppendTo(ready.active, EncodeAll(crc, batch), LogRuns.AppendOf(fault))
                 && r.appended ==
                    w.appended + if AppendOk(ready.active, LogRuns.AppendOf(fault)) then |EncodeAll(crc, batch)| else 0
  {
    hide EncodeAll, WithRecords, Recorded, EventsAfter, NameTaken, MutationsOf, Shares, AllEncodable;
  }

  /**
   Once a checkpoint is due after a batch, there is a sealed segment to free if and only if
   there was one before it or the batch began one.
   */
  lemma DueFindsSealed(crc: Crc, interval: nat, w: Service, requests: seq<Request>, fault: RetireFault)
    requires Room(w.m, |MutationsOf(requests)|) && Behind(w, interval)
    ensures var r := RetireRound(crc, w, requests, fault);
            r.appended >= interval ==>
              (r.m.sealed == [] <==> w.m.sealed == [] && w.m.active.written < w.m.active.limit)
  {
    hide RetireRound, Placed, MutationsOf, EncodeAll, NameTaken, AllEncodable;
    if requests == [] {
      NothingRetired(crc, w, fault);
    } else {
      RetiredMeans(crc, w, requests, fault);
    }
  }

  lemma NothingRetired(crc: Crc, w: Service, fault: RetireFault)
    requires Room(w.m, |MutationsOf([])|)
    ensures RetireRound(crc, w, [], fault) == w
  {
  }

  /** A batch that leaves the interval room for a segment never makes one due with nothing sealed. */
  lemma RetireStaysBehind(crc: Crc, interval: nat, w: Service, requests: seq<Request>, fault: RetireFault, max: nat)
    requires Room(w.m, |MutationsOf(requests)|) && Behind(w, interval) && Fits(crc, requests, max)
    requires w.m.active.limit + max <= interval && 0 < interval
    ensures var r := RetireRound(crc, w, requests, fault);
            Behind(r, interval) && r.m.active.limit == w.m.active.limit
  {
    hide RetireRound, MutationsOf, EncodeAll, NameTaken, AllEncodable;
    if requests == [] {
      NothingRetired(crc, w, fault);
    } else {
      RetiredMeans(crc, w, requests, fault);
      var r := RetireRound(crc, w, requests, fault);
      assert forall f :: f in r.m.Files() ==> f in w.m.Files() || f.first == w.m.store.applied || f.first == w.m.first;
      assert File(w.m.first, w.m.active.data) in w.m.Files();
    }
  }

  /** Every sealed segment is redundant once the store has reached all their successors. */
  lemma AllRedundant(m: Machine)
    requires Placed(m)
    ensures Redundant(m.Files(), m.store.applied) == |m.sealed|
  {
    var files := m.Files();
    RedundantIsLongest(files, m.store.applied);
    forall i | 0 <= i < |files| ensures files[i].first <= m.store.applied { assert files[i] in files; }
  }

  /** A compaction that succeeds frees every sealed segment; one that fails frees not all there is. */
  lemma CompactionFreesAll(m: Machine, fault: CompactFault)
    requires Placed(m) && m.store.applied < U64_END
    ensures var (next, outcome) := CompactLog(m, fault);
            && Placed(next) && next.active == m.active
            && (outcome.Ok? ==> outcome.value == |m.sealed| && next.sealed == [])
            && (outcome.Err? && m.sealed != [] ==> next.sealed != [])
            && |next.sealed| <= |m.sealed|
  {
    AllRedundant(m);
    var next := CompactLog(m, fault).0;
    assert forall f :: f in next.Files() ==> f in m.Files();
  }

  lemma CompactionStaysBehind(w: Service, interval: nat, checkpoints: seq<nat>, fault: CompactFault)
    requires w.m.store.applied < U64_END && Behind(w, interval) && 0 < interval
    ensures Behind(CompactRound(w, interval, checkpoints, fault), interval)
    ensures CompactRound(w, interval, checkpoints, fault).m.active == w.m.active
  {
    hide Placed, CompactLog;
    CompactionFreesAll(w.m, fault);
    var c := CompactRound(w, interval, checkpoints, fault);
    if checkpoints != [] || w.appended >= interval {
      assert c.m == CompactLog(w.m, fault).0;
      assert Placed(c.m);
      assert c.appended == if CompactLog(w.m, fault).1.Ok? then 0 else w.appended;
    }
  }

  // ---- Serving a queue --------------------------------------------------------------------------------

  /** Whether every round of a run, from position `i`, retires no more than `max` bytes at once. */
  predicate RoundsFit(crc: Crc, queue: seq<Slot>, i: nat, max: nat)
    requires i <= |queue|
    decreases |queue| - i
  {
    NextMessage(queue, i) == |queue| ||
    var n := RoundEnd(queue, i);
    Fits(crc, Writes(queue[i..n]), max) && RoundsFit(crc, queue, n, max)
  }

  /** The round's writer once its batch was retired, before any compaction. */
  function Retired(crc: Crc, w: Service, slots: seq<Slot>, fault: RoundFault): Service
    requires Room(w.m, Load(slots))
  {
    RetireRound(crc, w.(answers := w.answers + Replaced(Checkpoints(slots))), Writes(slots), fault.retire)
  }

  /** A checkpoint nobody asked for: something is sealed, and if it succeeds just that is freed. */
  ghost predicate PaysOff(crc: Crc, interval: nat, w: Service, slots: seq<Slot>, fault: RoundFault)
    requires Room(w.m, Load(slots))
  {
    var r := Retired(crc, w, slots, fault);
    Checkpoints(slots) == [] && r.appended >= interval ==>
      && r.m.sealed != [] && r.m.store.applied < U64_END
      && var (next, outcome) := CompactLog(r.m, fault.compact);
         outcome.Ok? ==> outcome.value == |r.m.sealed| && next.sealed == []
  }

  /** Every automatic checkpoint of a run pays off. */
  ghost predicate AllPayOff(crc: Crc, interval: nat, w: Service, queue: seq<Slot>, i: nat,
                            faults: nat -> RoundFault, round: nat)
    requires i <= |queue| && Room(w.m, Load(queue[i..]))
    decreases |queue| - i
  {
    NextMessage(queue, i) == |queue| ||
    var n := RoundEnd(queue, i);
    LoadSplits(queue, i, n);
    RoundTakesRoom(crc, interval, w, queue[i..n], faults(round), Load(queue[n..]));
    && PaysOff(crc, interval, w, queue[i..n], faults(round))
    && AllPayOff(crc, interval, Round(crc, interval, w, queue[i..n], faults(round)), queue, n, faults, round + 1)
  }

  lemma RoundStaysBehind(crc: Crc, interval: nat, w: Service, slots: seq<Slot>, fault: RoundFault, max: nat)
    requires Room(w.m, Load(slots)) && Behind(w, interval) && Fits(crc, Writes(slots), max)
    requires w.m.active.limit + max <= interval && 0 < interval
    ensures PaysOff(crc, interval, w, slots, fault)
    ensures var next := Round(crc, interval, w, slots, fault);
            Behind(next, interval) && next.m.active.limit == w.m.active.limit
  {
    hide RetireRound, CompactRound, CompactLog, Placed, Fits, Writes, Checkpoints, MutationsOf;
    var gathered := w.(answers := w.answers + Replaced(Checkpoints(slots)));
    var r := Retired(crc, w, slots, fault);
    RetiringRoom(crc, gathered, Writes(slots), fault.retire);
    RetireStaysBehind(crc, interval, gathered, Writes(slots), fault.retire, max);
    CompactionFreesAll(r.m, fault.compact);
    CompactionStaysBehind(r, interval, Checkpoints(slots), fault.compact);
  }

  /**
   Where every round's batch leaves the interval room for a segment, a sealed segment stands
   behind the active one at every automatic checkpoint of a run, whatever fails, and each
   that succeeds frees all but the active segment.
   */
  lemma {:induction false} CheckpointsPayOff(crc: Crc, interval: nat, w: Service, queue: seq<Slot>, i: nat,
                                             faults: nat -> RoundFault, round: nat, max: nat)
    requires i <= |queue| && Room(w.m, Load(queue[i..])) && Behind(w, interval) && RoundsFit(crc, queue, i, max)
    requires w.m.active.limit + max <= interval && 0 < interval
    ensures AllPayOff(crc, interval, w, queue, i, faults, round)
    ensures Behind(Serve(crc, interval, w, queue, i, faults, round), interval)
    decreases |queue| - i
  {
    hide Behind, Fits, Round, PaysOff, Room, Load, RoundEnd, NextMessage;
    if NextMessage(queue, i) < |queue| {
      var n := RoundEnd(queue, i);
      LoadSplits(queue, i, n);
      RoundTakesRoom(crc, interval, w, queue[i..n], faults(round), Load(queue[n..]));
      RoomFor(w.m, Load(queue[i..n]), Load(queue[n..]));
      RoundStaysBehind(crc, interval, w, queue[i..n], faults(round), max);
      CheckpointsPayOff(crc, interval, Round(crc, interval, w, queue[i..n], faults(round)), queue, n, faults, round + 1,
                        max);
    }
  }

  lemma RoomFor(m: Machine, a: nat, b: nat)
    requires Room(m, a + b)
    ensures Room(m, a)
  {
  }

  // ---- How much there can be ----------------------------------------------------------------------------

  function Bytes(files: seq<File>): nat {
    if files == [] then 0 else Bytes(Front(files)) + |Last(files).data|
  }

  lemma BytesSnoc(files: seq<File>, f: File)
    ensures Bytes(files + [f]) == Bytes(files) + |f.data|
  {
    Snoc(files, f);
  }

  /** The active segment fits its limit and a batch; all of them, that and what was counted. */
  ghost predicate Bounded(w: Service, max: nat) {
    var a := w.m.active;
    && ValidSegment(a) && 0 < a.limit && |a.data| <= a.limit + max && (a.poisoned ==> a.written < a.limit)
    && Bytes(w.m.Files()) <= a.limit + max + w.appended + if a.poisoned then max else 0
  }

  predicate FlushFailed(fault: RetireFault) {
    fault.AppendFault? && fault.append.FlushFails?
  }

  lemma RetireStaysBounded(crc: Crc, w: Service, requests: seq<Request>, fault: RetireFault, max: nat)
    requires Room(w.m, |MutationsOf(requests)|) && Bounded(w, max) && Fits(crc, requests, max) && !FlushFailed(fault)
    ensures var r := RetireRound(crc, w, requests, fault);
            Bounded(r, max) && r.m.active.limit == w.m.active.limit && r.appended <= w.appended + max
  {
    hide RetireRound, MutationsOf, EncodeAll, NameTaken, AllEncodable, Bytes;
    if requests == [] {
      NothingRetired(crc, w, fault);
    } else {
      RetiredMeans(crc, w, requests, fault);
      var m, r := w.m, RetireRound(crc, w, requests, fault);
      BytesSnoc(m.sealed, File(m.first, m.active.data));
      BytesSnoc(m.Files(), File(m.store.applied, []));
      BytesSnoc(r.m.sealed, File(r.m.first, r.m.active.data));
    }
  }

  /**
   A compaction that succeeds leaves the active segment's bytes and nothing counted; one that
   fails leaves no more bytes than there were, and the count.
   */
  lemma CompactionStaysBounded(w: Service, interval: nat, checkpoints: seq<nat>, fault: CompactFault, max: nat)
    requires w.m.store.applied < U64_END && Placed(w.m) && Bounded(w, max)
    ensures var c := CompactRound(w, interval, checkpoints, fault);
            && Placed(c.m) && Bounded(c, max) && c.m.active == w.m.active
            && (CompactLog(w.m, fault).1.Err? ==> c.appended == w.appended)
            && (CompactLog(w.m, fault).1.Ok? && (checkpoints != [] || interval <= w.appended) ==> c.appended == 0)
  {
    hide Placed, Bytes, ValidSegment, CompactLog;
    CompactionFreesAll(w.m, fault);
    CompactionLeaves(w.m, fault);
    var c := CompactRound(w, interval, checkpoints, fault);
    if (checkpoints != [] || w.appended >= interval) && CompactLog(w.m, fault).1.Ok? {
      assert c.m == CompactLog(w.m, fault).0 && c.m.sealed == [];
      BytesSnoc([], File(c.m.first, c.m.active.data));
      assert [] + [File(c.m.first, c.m.active.data)] == c.m.Files();
      NoBytesAtAll();
    }
  }

  /** Whatever a compaction does, it leaves the last of the segments there were. */
  lemma CompactionLeaves(m: Machine, fault: CompactFault)
    requires m.store.applied < U64_END
    ensures Bytes(CompactLog(m, fault).0.Files()) <= Bytes(m.Files())
  {
    hide Bytes;
    var next := CompactLog(m, fault).0;
    var n := |m.sealed| - |next.sealed|;
    assert next.Files() == m.Files()[n..];
    BytesDropped(m.Files(), n);
  }

  lemma {:induction false} BytesDropped(files: seq<File>, n: nat)
    requires n <= |files|
    ensures Bytes(files[n..]) <= Bytes(files)
  {
    if n < |files| {
      BytesDropped(Front(files), n);
      assert Front(files[n..]) == Front(files)[n..];
    }
  }

  lemma RoundStaysBounded(crc: Crc, interval: nat, w: Service, slots: seq<Slot>, fault: RoundFault, max: nat)
    requires Room(w.m, Load(slots)) && Placed(w.m) && Bounded(w, max) && Fits(crc, Writes(slots), max)
    requires !FlushFailed(fault.retire)
    ensures var next := Round(crc, interval, w, slots, fault);
            Placed(next.m) && Bounded(next, max) && next.m.active.limit == w.m.active.limit
  {
    hide RetireRound, CompactRound, Placed, Fits, Writes, Checkpoints, MutationsOf, Bytes, ValidSegment;
    var gathered := w.(answers := w.answers + Replaced(Checkpoints(slots)));
    RetiringRoom(crc, gathered, Writes(slots), fault.retire);
    RetireStaysBounded(crc, gathered, Writes(slots), fault.retire, max);
    RetireStaysPlaced(crc, gathered, Writes(slots), fault.retire);
    hide Bounded;
    CompactionStaysBounded(Retired(crc, w, slots, fault), interval, Checkpoints(slots), fault.compact, max);
  }

  // ---- What was appended since a compaction last succeeded -----------------------------------------------

  /** What a round's batch appended: all its records, if they were written and flushed. */
  function Appends(crc: Crc, m: Machine, requests: seq<Request>, fault: RetireFault): nat {
    var batch := MutationsOf(requests);
    if requests != [] && AllEncodable(batch) && RetireReply(crc, m, batch, fault).1 then |EncodeAll(crc, batch)| else 0
  }

  /** Whether a round compacts the log, having been asked to or with so much appended, and succeeds. */
  predicate Frees(crc: Crc, interval: nat, w: Service, slots: seq<Slot>, fault: RoundFault, count: nat)
    requires Room(w.m, Load(slots)) && Retired(crc, w, slots, fault).m.store.applied < U64_END
  {
    (Checkpoints(slots) != [] || interval <= count) && CompactLog(Retired(crc, w, slots, fault).m, fault.compact).1.Ok?
  }

  /** What a run appended after its last compaction that succeeded, given what was before it. */
  function SinceFreed(crc: Crc, interval: nat, w: Service, queue: seq<Slot>, i: nat, faults: nat -> RoundFault,
                      round: nat, before: nat): nat
    requires i <= |queue| && Room(w.m, Load(queue[i..]))
    decreases |queue| - i
  {
    if NextMessage(queue, i) == |queue| then before
    else
      var n := RoundEnd(queue, i);
      var slots, fault := queue[i..n], faults(round);
      LoadSplits(queue, i, n);
      RoundTakesRoom(crc, interval, w, slots, fault, Load(queue[n..]));
      RetiringRoom(crc, w.(answers := w.answers + Replaced(Checkpoints(slots))), Writes(slots), fault.retire);
      var count := before + Appends(crc, w.m, Writes(slots), fault.retire);
      SinceFreed(crc, interval, Round(crc, interval, w, slots, fault), queue, n, faults, round + 1,
                 if Frees(crc, interval, w, slots, fault, count) then 0 else count)
  }

  lemma RoundCounts(crc: Crc, interval: nat, w: Service, slots: seq<Slot>, fault: RoundFault)
    requires Room(w.m, Load(slots)) && Retired(crc, w, slots, fault).m.store.applied < U64_END
    ensures var count := w.appended + Appends(crc, w.m, Writes(slots), fault.retire);
            Round(crc, interval, w, slots, fault).appended ==
            if Frees(crc, interval, w, slots, fault, count) then 0 else count
  {
    hide RetireBatch, RetireReply, Shares, Writes, Checkpoints, MutationsOf, EncodeAll, AllEncodable, CompactLog;
  }

  /** One round of it, counted on from what the writer has counted so far. */
  lemma FreedOn(crc: Crc, interval: nat, w: Service, queue: seq<Slot>, i: nat, faults: nat -> RoundFault, round: nat)
    requires i <= |queue| && Room(w.m, Load(queue[i..])) && NextMessage(queue, i) < |queue|
    ensures var n := RoundEnd(queue, i);
            && Room(w.m, Load(queue[i..n]))
            && var next := Round(crc, interval, w, queue[i..n], faults(round));
               && Room(next.m, Load(queue[n..]))
               && SinceFreed(crc, interval, w, queue, i, faults, round, w.appended) ==
                  SinceFreed(crc, interval, next, queue, n, faults, round + 1, next.appended)
  {
    hide Round, Load, RoundEnd, NextMessage, Appends, Frees, RetireRound, Writes, Checkpoints, MutationsOf;
    var n := RoundEnd(queue, i);
    var slots, fault := queue[i..n], faults(round);
    LoadSplits(queue, i, n);
    RoundTakesRoom(crc, interval, w, slots, fault, Load(queue[n..]));
    RoomThrough(w.m, slots);
    RetiringRoom(crc, w.(answers := w.answers + Replaced(Checkpoints(slots))), Writes(slots), fault.retire);
    RoundCounts(crc, interval, w, slots, fault);
  }

  lemma NothingMoreFreed(crc: Crc, interval: nat, w: Service, queue: seq<Slot>, i: nat, faults: nat -> RoundFault,
                         round: nat)
    requires i <= |queue| && Room(w.m, Load(queue[i..])) && NextMessage(queue, i) == |queue|
    ensures SinceFreed(crc, interval, w, queue, i, faults, round, w.appended) == w.appended
  {
  }

  /** The writer's count is just that: a failed compaction forgets nothing, so the next round tries again. */
  lemma {:induction false} CountsSinceFreed(crc: Crc, interval: nat, w: Service, queue: seq<Slot>, i: nat,
                                            faults: nat -> RoundFault, round: nat)
    requires i <= |queue| && Room(w.m, Load(queue[i..]))
    ensures Serve(crc, interval, w, queue, i, faults, round).appended ==
            SinceFreed(crc, interval, w, queue, i, faults, round, w.appended)
    decreases |queue| - i
  {
    hide Round, Load, RoundEnd, NextMessage, Room, Serve, SinceFreed;
    ServesOn(crc, interval, w, queue, i, faults, round);
    if NextMessage(queue, i) < |queue| {
      var n := RoundEnd(queue, i);
      FreedOn(crc, interval, w, queue, i, faults, round);
      CountsSinceFreed(crc, interval, Round(crc, interval, w, queue[i..n], faults(round)), queue, n, faults, round + 1);
    } else {
      NothingMoreFreed(crc, interval, w, queue, i, faults, round);
    }
  }

  lemma RoomThrough(m: Machine, slots: seq<Slot>)
    requires Room(m, Load(slots))
    ensures Room(m, |MutationsOf(Writes(slots))|)
  {
  }

  lemma NoBytesAtAll()
    ensures Bytes([]) == 0
  {
  }

  lemma RetireStaysPlaced(crc: Crc, w: Service, requests: seq<Request>, fault: RetireFault)
    requires Room(w.m, |MutationsOf(requests)|) && Placed(w.m)
    ensures Placed(RetireRound(crc, w, requests, fault).m)
  {
    hide RetireRound, MutationsOf, EncodeAll, NameTaken, AllEncodable;
    if requests == [] {
      NothingRetired(crc, w, fault);
    } else {
      RetiredMeans(crc, w, requests, fault);
      var r := RetireRound(crc, w, requests, fault);
      assert forall f :: f in r.m.Files() ==> f in w.m.Files() || f.first == w.m.store.applied || f.first == w.m.first;
      assert File(w.m.first, w.m.active.data) in w.m.Files();
    }
  }

  /**
   While flushes succeed, the log on disk never outgrows a segment, two batches, and what
   was appended since a compaction last succeeded.
   */
  lemma {:induction false} SpaceIsBounded(crc: Crc, interval: nat, w: Service, queue: seq<Slot>, i: nat,
                                          faults: nat -> RoundFault, round: nat, max: nat)
    requires i <= |queue| && Room(w.m, Load(queue[i..])) && RoundsFit(crc, queue, i, max)
    requires Placed(w.m) && Bounded(w, max) && forall k :: round <= k ==> !FlushFailed(faults(k).retire)
    ensures var end := Serve(crc, interval, w, queue, i, faults, round);
            && Bounded(end, max)
            && Bytes(end.m.Files()) <=
               w.m.active.limit + 2 * max + SinceFreed(crc, interval, w, queue, i, faults, round, w.appended)
    decreases |queue| - i
  {
    hide Placed, Fits, Round, Room, Load, RoundEnd, NextMessage, Bytes, ValidSegment, SinceFreed;
    CountsSinceFreed(crc, interval, w, queue, i, faults, round);
    ServesOn(crc, interval, w, queue, i, faults, round);
    if NextMessage(queue, i) < |queue| {
      var n := RoundEnd(queue, i);
      RoundStaysBounded(crc, interval, w, queue[i..n], faults(round), max);
      var next := Round(crc, interval, w, queue[i..n], faults(round));
      SpaceIsBounded(crc, interval, next, queue, n, faults, round + 1, max);
      CountsSinceFreed(crc, interval, next, queue, n, faults, round + 1);
    }
  }

  /** While compactions succeed too, that is less than the interval. */
  lemma {:induction false} FreedInTime(crc: Crc, interval: nat, w: Service, queue: seq<Slot>, i: nat,
                                       faults: nat -> RoundFault, round: nat)
    requires i <= |queue| && Room(w.m, Load(queue[i..])) && w.appended < interval
    requires forall k :: round <= k ==> faults(k).compact.Succeeds?
    ensures SinceFreed(crc, interval, w, queue, i, faults, round, w.appended) < interval
    decreases |queue| - i
  {
    hide Round, Load, RoundEnd, NextMessage, Room, SinceFreed;
    if NextMessage(queue, i) < |queue| {
      var n := RoundEnd(queue, i);
      FreedOn(crc, interval, w, queue, i, faults, round);
      RoundEndsFreed(crc, interval, w, queue[i..n], faults(round));
      FreedInTime(crc, interval, Round(crc, interval, w, queue[i..n], faults(round)), queue, n, faults, round + 1);
    } else {
      NothingMoreFreed(crc, interval, w, queue, i, faults, round);
    }
  }

  lemma RoundEndsFreed(crc: Crc, interval: nat, w: Service, slots: seq<Slot>, fault: RoundFault)
    requires Room(w.m, Load(slots)) && fault.compact.Succeeds? && w.appended < interval
    ensures Round(crc, interval, w, slots, fault).appended < interval
  {
    hide RetireRound, Writes, Checkpoints, MutationsOf, CompactLog;
    RoomThrough(w.m, slots);
    RetiringRoom(crc, w.(answers := w.answers + Replaced(Checkpoints(slots))), Writes(slots), fault.retire);
    SucceedsOk(Retired(crc, w, slots, fault).m);
  }

  lemma SucceedsOk(m: Machine)
    requires m.store.applied < U64_END
    ensures CompactLog(m, Succeeds).1.Ok?
  {
  }

  // ---- Where it starts, and where it fails -----------------------------------------------------------------

  /** A log any prudent run left up starts with its segments placed and nothing due. */
  lemma StartsBehind(cfg: Config, steps: seq<Step>, interval: nat, answers: seq<Answer>)
    requires Volume(steps) <= I64_MAX && Prudent(cfg, steps) && Exec(cfg, steps).phase.Running? && 0 < interval
    ensures Behind(Service(Exec(cfg, steps).phase.m, 0, answers), interval)
  {
    hide Exec, Prudent, Volume, Flatten, LogRuns.CaughtTail, LogRuns.AllRestorable, EncodeAll, LogStores.Holds;
    LogRuns.RunKeeps(cfg, steps);
    var n := Exec(cfg, steps);
    var m, log := n.phase.m, Flatten(n.trace);
    var tail :| LogRuns.RunningHolds(cfg, n, tail);
    LogRuns.HoldsPosition(m.store, log);
    forall i | 0 <= i < |m.Files()| ensures m.Files()[i].first <= |log| {
      FirstsInLog(cfg.crc, m.Files(), log, tail, i);
    }
  }

  lemma FirstsInLog(crc: Crc, files: seq<File>, log: seq<Mutation>, tail: bytes, i: nat)
    requires HoldsLog(crc, files, log, tail) && i < |files|
    ensures files[i].first <= |log|
  {
    assert i < |files| - 1 ==> Sealed(crc, files, log, i);
  }

  /**
   At two segments' worth there need not be a sealed segment behind the active one: a first
   batch of that many bytes makes a checkpoint due that frees nothing.
   */
  lemma OversizedFreesNothing(cfg: Config, request: Request, fault: RoundFault)
    requires 0 < cfg.limit && AllEncodable(request.mutations) && |request.mutations| <= I64_MAX
    requires 2 * cfg.limit <= |EncodeAll(cfg.crc, request.mutations)|
    requires fault == RoundFault(RetireFault.AppendFault(NoFault), CompactFault.Succeeds)
    ensures var w, slots := Service(LogWitnesses.Empty(cfg), 0, []), [Waiting(Message.Write(request))];
            && Room(w.m, Load(slots)) && !PaysOff(cfg.crc, 2 * cfg.limit, w, slots, fault)
            && CompactLog(Retired(cfg.crc, w, slots, fault).m, fault.compact).1 == Ok(0)
  {
    hide EncodeAll, AllEncodable, RetireRound, ApplyTo;
    var w, slots := Service(LogWitnesses.Empty(cfg), 0, []), [Waiting(Message.Write(request))];
    Snoc([], slots[0]);
    Snoc([], request);
    assert Writes(slots) == [request] && MutationsOf([request]) == request.mutations;
    assert Checkpoints(slots) == [] && w.(answers := w.answers + Replaced([])) == w;
    RetiredMeans(cfg.crc, w, [request], fault.retire);
    RetiringRoom(cfg.crc, w, [request], fault.retire);
    assert Retired(cfg.crc, w, slots, fault) == RetireRound(cfg.crc, w, [request], fault.retire);
  }
}
