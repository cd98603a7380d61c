/** The writer as an object: it drains its queue, retires batches and compacts the log. */
module Writers {
  import opened Wrappers
  import opened Sequences
  import opened ByteStrings
  import opened Revisions
  import opened Mutations
  import opened Frames
  import opened LogRecords
  import opened Segments
  import opened Recovery
  import opened Stores
  import opened KvStores
  import opened LogMachine
  import opened WriterRounds
  import WriterGuarantees

  /** Encodes a batch's mutations end to end, or refuses it at the first too long to record. */
  method EncodeBatch(crc: Crc, requests: seq<Request>) returns (ok: bool, encoded: bytes, mutations: seq<Mutation>)
    ensures ok == AllEncodable(MutationsOf(requests))
    ensures ok ==> mutations == MutationsOf(requests) && encoded == EncodeAll(crc, mutations)
  {
    hide EncodeAll, RecordOf;
    var out := new Buffer();
    mutations := [];
    NothingEncoded(crc);
    for i := 0 to |requests|
      invariant mutations == MutationsOf(requests[..i]) && AllEncodable(mutations)
      invariant out.data == EncodeAll(crc, mutations)
    {
      ghost var before := mutations;
      var request := requests[i].mutations;
      assert requests[..i + 1] == requests[..i] + [requests[i]];
      MutationsSnoc(requests[..i], requests[i]);
      for j := 0 to |request|
        invariant mutations == before + request[..j] && AllEncodable(mutations)
        invariant out.data == EncodeAll(crc, mutations)
      {
        var encodes := EncodeRecord(crc, request[j], out);
        if !encodes {
          NotAllEncodable(requests, i, j);
          return false, [], [];
        }
        OneMoreEncoded(crc, mutations, request[j]);
        mutations := mutations + [request[j]];
      }
      assert request[..|request|] == request;
    }
    assert requests[..|requests|] == requests;
    return true, out.data, mutations;
  }

  lemma NothingEncoded(crc: Crc)
    ensures EncodeAll(crc, []) == []
  {
  }

  lemma OneMoreEncoded(crc: Crc, ms: seq<Mutation>, m: Mutation)
    requires AllEncodable(ms) && Encodable(m)
    ensures AllEncodable(ms + [m]) && EncodeAll(crc, ms + [m]) == EncodeAll(crc, ms) + RecordOf(crc, m)
  {
    EncodeConcat(crc, ms, [m]);
    FirstRecord(crc, [m]);
    NothingEncoded(crc);
    assert [m][1..] == [] && RecordOf(crc, m) + [] == RecordOf(crc, m);
  }

  lemma NotAllEncodable(requests: seq<Request>, i: nat, j: nat)
    requires i < |requests| && j < |requests[i].mutations| && !Encodable(requests[i].mutations[j])
    ensures !AllEncodable(MutationsOf(requests))
  {
    hide MutationsOf;
    var before := MutationsOf(requests[..i]);
    assert requests == requests[..i] + ([requests[i]] + requests[i + 1..]);
    MutationsConcat(requests[..i], [requests[i]] + requests[i + 1..]);
    MutationsConcat([requests[i]], requests[i + 1..]);
    MutationsSnoc([], requests[i]);
    NoMutations();
    assert [] + [requests[i]] == [requests[i]];
    assert MutationsOf(requests)[|before| + j] == requests[i].mutations[j];
  }

  class LogWriter {
    const crc: Crc
    const interval: nat
    const store: KvStore
    var sealed: seq<File>
    var flushed: seq<nat>
    var first: nat
    var segment: Segment
    var batch: seq<Request>
    var requested: Option<nat>
    var appended: nat
    var answers: seq<Answer>

    constructor (crc: Crc, interval: nat, store: KvStore, sealed: seq<File>, flushed: seq<nat>, first: nat,
                 segment: Segment)
      ensures this.crc == crc && this.interval == interval && this.store == store && this.segment == segment
      ensures this.sealed == sealed && this.flushed == flushed && this.first == first
      ensures batch == [] && requested == None && appended == 0 && answers == []
    {
      this.crc, this.interval, this.store := crc, interval, store;
      this.sealed, this.flushed, this.first, this.segment := sealed, flushed, first, segment;
      batch, requested, appended, answers := [], None, 0, [];
    }

    /** The log this writer runs, as the machine's state. */
    function View(): Machine
      requires store.engine.commits != []
      reads this, segment, segment.sink, store, store.engine, store.index
    {
      Machine(sealed, flushed, first, segment.View(), store.View(), store.engine.commits)
    }

    ghost predicate Valid()
      reads this, segment, segment.sink, store, store.engine, store.index
    {
      store.Valid() && ValidSegment(segment.View())
    }

    function State(): Service
      requires store.engine.commits != []
      reads this, segment, segment.sink, store, store.engine, store.index
    {
      Service(View(), appended, answers)
    }

    /** The segment files as listing the directory finds them. */
    function Files(): seq<File>
      reads this, segment, segment.sink
    {
      sealed + [File(first, segment.sink.data)]
    }

    // ---- Retiring a batch ------------------------------------------------------------------

    /** Writes the batch to the log, flushes it, and applies it to the store. */
    method Retire(fault: RetireFault) returns (reply: Result<seq<Revision>, WalError>)
      requires Valid() && Room(View(), |MutationsOf(batch)|)
      modifies this`sealed, this`flushed, this`first, this`segment, this`appended
      modifies segment, segment.sink, store, store.engine, store.index
      ensures Valid() && (segment == old(segment) || fresh(segment))
      ensures segment.sink == old(segment.sink) || fresh(segment.sink)
      ensures View() == RetireBatch(crc, old(View()), MutationsOf(batch), fault).0
      ensures reply == RetireReply(crc, old(View()), MutationsOf(batch), fault).0
      ensures appended == old(appended) +
              if RetireReply(crc, old(View()), MutationsOf(batch), fault).1 && AllEncodable(MutationsOf(batch))
              then |EncodeAll(crc, MutationsOf(batch))| else 0
    {
      hide EncodeAll, ApplyTo, MutationsOf, AllEncodable, AppendTo, Rolled, NameTaken, EventsAfter, RevisionsOf;
      var ok, encoded, mutations := EncodeBatch(crc, batch);
      if !ok {
        return Err(CorruptRecord);
      }
      if segment.IsFull() {
        if fault.RollFails? || NameTaken(View(), store.applied) {
          return Err(Io);
        }
        RollOver();
      }
      var append := if fault.AppendFault? then fault.append else NoFault;
      reply := AppendAndApply(encoded, mutations, append, !fault.ApplyFails?);
    }

    /** Seals the active segment and starts the next at the store's position. */
    method RollOver()
      requires store.engine.commits != []
      modifies this`sealed, this`flushed, this`first, this`segment
      ensures fresh(segment) && fresh(segment.sink)
      ensures View() == Rolled(old(View())) && View().store == old(View()).store && !View().active.poisoned
      ensures ValidSegment(View().active)
    {
      var next := new Segment.Create(segment.limit);
      sealed, flushed, first, segment := Files(), flushed + [segment.sink.synced], store.applied, next;
    }

    /** Appends and flushes encoded mutations, and only then applies them. */
    method AppendAndApply(encoded: bytes, mutations: seq<Mutation>, append: AppendFault, applyOk: bool)
      returns (reply: Result<seq<Revision>, WalError>)
      requires Valid() && Room(View(), |mutations|)
      modifies this`appended, segment, segment.sink, store, store.engine, store.index
      ensures Valid()
      ensures var m := old(View());
              var written := m.(active := AppendTo(m.active, encoded, append));
              && (!AppendOk(m.active, append) ==> reply == Err(Io) && View() == written && appended == old(appended))
              && (AppendOk(m.active, append) ==> appended == old(appended) + |encoded|)
              && (AppendOk(m.active, append) && !applyOk ==> reply == Err(ApplyRefused) && View() == written)
              && (AppendOk(m.active, append) && applyOk ==>
                    && reply == Ok(RevisionsOf(EventsAfter(m.store.current, mutations)))
                    && View() == Committed(written, ApplyTo(m.store, mutations, m.store.applied + |mutations|)))
    {
      hide ApplyTo, AppendTo, EventsAfter;
      var written := segment.Append(encoded, append);
      if !written {
        return Err(Io);
      }
      appended := appended + |encoded|;
      var applied := store.Apply(mutations, store.applied + |mutations|, applyOk);
      match applied {
        case Ok(revisions) => return Ok(revisions);
        case Err(_) => return Err(ApplyRefused);
      }
    }

    /** Answers every caller in the batch, splitting the batch's revisions among them. */
    method AnswerBatch(reply: Result<seq<Revision>, WalError>)
      modifies this`batch, this`answers
      ensures batch == [] && answers == old(answers) + Shares(old(batch), reply)
    {
      match reply {
        case Ok(revisions) =>
          var rest := revisions;
          while batch != []
            invariant old(answers) + Shares(old(batch), reply) == answers + Shares(batch, Ok(rest))
            decreases |batch|
          {
            var request := batch[0];
            var mine := Take(rest, |request.mutations|);
            rest := Drop(rest, |request.mutations|);
            answers, batch := answers + [Wrote(request.id, Ok(mine))], batch[1..];
          }
        case Err(error) =>
          while batch != []
            invariant old(answers) + Shares(old(batch), reply) == answers + Shares(batch, reply)
            decreases |batch|
          {
            answers, batch := answers + [Wrote(batch[0].id, Err(error))], batch[1..];
          }
      }
    }

    // ---- Compacting the log ------------------------------------------------------------------

    /** Flushes the store and removes the segments it has made redundant. */
    method Compact(fault: CompactFault) returns (outcome: Result<nat, WalError>)
      requires Valid()
      modifies this`sealed, this`flushed, store.engine
      ensures Valid()
      ensures View() == CompactLog(old(View()), fault).0 && outcome == CompactLog(old(View()), fault).1
    {
      hide Redundant;
      var checkpointed := store.Checkpoint(!fault.CheckpointFails?, fault.CheckpointFails? && fault.visible);
      if checkpointed.Err? {
        return Err(ApplyRefused);
      }
      if fault.ListFails? {
        return Err(Io);
      }
      var stop := if fault.RemoveFails? then Some(fault.after) else None;
      var ok, removed := RemoveRedundant(Files(), checkpointed.value, stop);
      if !ok {
        return Err(Io);
      }
      return Ok(removed);
    }

    /** Removes, oldest first, each segment whose successor starts at or below `durable`. */
    method RemoveRedundant(segments: seq<File>, durable: nat, failsAt: Option<nat>) returns (ok: bool, removed: nat)
      requires segments == Files()
      modifies this`sealed, this`flushed
      ensures var n := Redundant(segments, durable);
              && n <= |old(sealed)| && ok == (failsAt.None? || n <= failsAt.value)
              && removed == (if ok then n else failsAt.value)
              && sealed == old(sealed)[removed..] && flushed == Drop(old(flushed), removed)
    {
      removed := 0;
      assert segments[0..] == segments;
      while removed + 1 < |segments| && segments[removed + 1].first <= durable
        invariant removed < |segments| && sealed == old(sealed)[removed..] && flushed == Drop(old(flushed), removed)
        invariant Redundant(segments, durable) == removed + Redundant(segments[removed..], durable)
        invariant failsAt.Some? ==> removed <= failsAt.value
      {
        RedundantNext(segments, removed, durable);
        if failsAt == Some(removed) {
          return false, removed;
        }
        assert sealed[1..] == old(sealed)[removed + 1..];
        assert Drop(flushed, 1) == Drop(old(flushed), removed + 1);
        sealed, flushed := sealed[1..], Drop(flushed, 1);
        removed := removed + 1;
      }
      RedundantNext(segments, removed, durable);
      return true, removed;
    }

    // ---- Draining the queue ------------------------------------------------------------------

    /** Takes one message into the round; a checkpoint displaces one already requested. */
    method Accept(message: Message, ghost slots: seq<Slot>, ghost before: seq<Answer>)
      requires Gathered(slots, before)
      modifies this`batch, this`requested, this`answers
      ensures Gathered(slots + [Waiting(message)], before)
    {
      hide Writes, Checkpoints, Dropped;
      WritesSnoc(slots, Waiting(message));
      CheckpointsSnoc(slots, Waiting(message));
      match message {
        case Write(request) =>
          NothingDisplaced(Checkpoints(slots));
          batch := batch + [request];
        case Checkpoint(id) =>
          Displaced(Checkpoints(slots), id);
          Associate(before, Replaced(Checkpoints(slots)), if requested.Some? then [Shutdown(requested.value)] else []);
          if requested.Some? {
            answers := answers + [Shutdown(requested.value)];
          }
          requested := Some(id);
      }
    }

    /** The round so far is what these slots held. */
    ghost predicate Gathered(slots: seq<Slot>, before: seq<Answer>)
      reads this
    {
      && batch == Writes(slots)
      && requested == (if Checkpoints(slots) == [] then None else Some(Last(Checkpoints(slots))))
      && answers == before + Replaced(Checkpoints(slots))
    }

    /** Waits for a message, then takes whatever else is waiting, until the batch is full. */
    method Gather(queue: seq<Slot>, i: nat) returns (any: bool, end: nat)
      requires i <= |queue| && batch == [] && requested == None
      modifies this`batch, this`requested, this`answers
      ensures any == (NextMessage(queue, i) < |queue|)
      ensures any ==> end == RoundEnd(queue, i) && Gathered(queue[i..end], old(answers))
      ensures !any ==> batch == [] && requested == None && answers == old(answers)
    {
      hide Writes, Checkpoints, WriteOf, Filled, NextMessage, Gathered;
      end := i;
      while end < |queue| && queue[end].Gap?
        invariant i <= end <= |queue| && NextMessage(queue, i) == NextMessage(queue, end)
        invariant batch == [] && requested == None && answers == old(answers)
      {
        SkipsGap(queue, end);
        end := end + 1;
      }
      StopsAtMessage(queue, end);
      if end == |queue| {
        return false, end;
      }
      GapsGather(queue, i, old(answers));
      GatheredNothing(queue[i..end], old(answers));
      assert queue[i..end + 1] == queue[i..end] + [queue[end]];
      WritesSnoc(queue[i..end], queue[end]);
      Accept(queue[end].message, queue[i..end], old(answers));
      GatheredBatch(queue[i..end + 1], old(answers));
      end := end + 1;
      while |batch| < MAX_BATCH
        invariant i < end <= |queue| && Gathered(queue[i..end], old(answers))
        invariant Filled(queue, end, |batch|) == RoundEnd(queue, i)
        decreases |queue| - end
      {
        FillsNext(queue, end, |batch|);
        if end == |queue| {
          return true, end;
        }
        assert queue[i..end + 1] == queue[i..end] + [queue[end]];
        WritesSnoc(queue[i..end], queue[end]);
        GatheredBatch(queue[i..end], old(answers));
        if queue[end].Gap? {
          GapChangesNothing(queue[i..end], queue[end], old(answers));
          end := end + 1;
          return true, end;
        }
        Accept(queue[end].message, queue[i..end], old(answers));
        GatheredBatch(queue[i..end + 1], old(answers));
        end := end + 1;
      }
      FillsNext(queue, end, |batch|);
      return true, end;
    }

    lemma GatheredNothing(slots: seq<Slot>, before: seq<Answer>)
      requires Writes(slots) == [] && Checkpoints(slots) == []
      requires batch == [] && requested == None && answers == before
      ensures Gathered(slots, before)
    {
    }

    lemma GatheredBatch(slots: seq<Slot>, before: seq<Answer>)
      requires Gathered(slots, before)
      ensures batch == Writes(slots)
    {
    }

    lemma GapChangesNothing(slots: seq<Slot>, slot: Slot, before: seq<Answer>)
      requires Gathered(slots, before) && slot.Gap?
      ensures Gathered(slots + [slot], before)
    {
      hide Writes, Checkpoints;
      WritesSnoc(slots, slot);
      CheckpointsSnoc(slots, slot);
      NothingDisplaced(Checkpoints(slots));
      assert Writes(slots) + [] == Writes(slots);
    }

    /** Serves messages, folding writes into batches, until the queue is closed and drained. */
    method Run(queue: seq<Slot>, faults: nat -> RoundFault)
      requires Valid() && Room(View(), Load(queue)) && batch == [] && requested == None
      modifies this, segment, segment.sink, store, store.engine, store.index
      ensures Valid() && State() == Serve(crc, interval, old(State()), queue, 0, faults, 0)
    {
      hide Round, Load, NextMessage, RoundEnd, Serve, Gathered;
      var i, round := 0, 0;
      assert queue[0..] == queue;
      while true
        invariant i <= |queue| && Valid() && batch == [] && requested == None
        invariant segment == old(segment) || fresh(segment)
        invariant segment.sink == old(segment.sink) || fresh(segment.sink)
        invariant Room(View(), Load(queue[i..]))
        invariant Serve(crc, interval, State(), queue, i, faults, round) ==
                  Serve(crc, interval, old(State()), queue, 0, faults, 0)
        decreases |queue| - i
      {
        ghost var w := State();
        var any, end := Gather(queue, i);
        ServesRound(crc, interval, w, queue, i, faults, round);
        if !any {
          return;
        }
        ServeRound(queue[i..end], faults(round), w);
        i, round := end, round + 1;
      }
    }

    /** Retires and answers what a round gathered, then compacts if asked to or due. */
    method ServeRound(ghost slots: seq<Slot>, fault: RoundFault, ghost w: Service)
      requires Valid() && Room(w.m, Load(slots)) && Gathered(slots, w.answers) && View() == w.m
      requires appended == w.appended
      modifies this, segment, segment.sink, store, store.engine, store.index
      ensures Valid() && batch == [] && requested == None
      ensures (segment == old(segment) || fresh(segment)) && (segment.sink == old(segment.sink) || fresh(segment.sink))
      ensures State() == Round(crc, interval, w, slots, fault)
    {
      hide RetireRound, CompactRound, Writes, Checkpoints, MutationsOf, Replaced;
      RoomAfterRetiring(crc, w.(answers := answers), Writes(slots), fault.retire);
      if batch != [] {
        RetireGathered(fault.retire);
      } else {
        NothingRetired(crc, State(), fault.retire);
      }
      CompactIfDue(fault.compact, Checkpoints(slots));
    }

    method RetireGathered(fault: RetireFault)
      requires Valid() && Room(View(), |MutationsOf(batch)|) && batch != []
      modifies this`sealed, this`flushed, this`first, this`segment, this`appended, this`batch, this`answers
      modifies segment, segment.sink, store, store.engine, store.index
      ensures Valid() && batch == []
      ensures (segment == old(segment) || fresh(segment)) && (segment.sink == old(segment.sink) || fresh(segment.sink))
      ensures State() == RetireRound(crc, old(State()), old(batch), fault)
    {
      hide RetireBatch, RetireReply, Shares, MutationsOf, EncodeAll, AllEncodable;
      var reply := Retire(fault);
      AnswerBatch(reply);
    }

    /** Compacts for a requested checkpoint, or because enough was appended since the last. */
    method CompactIfDue(fault: CompactFault, ghost checkpoints: seq<nat>)
      requires Valid() && requested == if checkpoints == [] then None else Some(Last(checkpoints))
      modifies this`sealed, this`flushed, this`appended, this`requested, this`answers, store.engine
      ensures Valid() && requested == None
      ensures State() == CompactRound(old(State()), interval, checkpoints, fault)
    {
      hide CompactLog;
      if requested.Some? {
        var id := requested.value;
        requested := None;
        var outcome := Compact(fault);
        if outcome.Ok? {
          appended := 0;
        }
        answers := answers + [Answer.Compacted(id, outcome)];
      } else if appended >= interval {
        var outcome := Compact(fault);
        if outcome.Ok? {
          appended := 0;
        }
        assert answers + [] == answers;
      }
    }
  }

  lemma RedundantNext(segments: seq<File>, i: nat, durable: nat)
    requires i < |segments|
    ensures Redundant(segments[i..], durable) ==
            if i + 1 < |segments| && segments[i + 1].first <= durable
            then 1 + Redundant(segments[i + 1..], durable)
            else 0
  {
    assert i + 1 < |segments| ==> segments[i..][1] == segments[i + 1] && segments[i..][1..] == segments[i + 1..];
  }

  lemma RoomAfterRetiring(crc: Crc, w: Service, requests: seq<Request>, fault: RetireFault)
    requires Room(w.m, |MutationsOf(requests)|)
    ensures RetireRound(crc, w, requests, fault).m.store.applied < U64_END
  {
    hide RetireBatch, MutationsOf;
    RetiringTakesRoom(crc, w.m, MutationsOf(requests), fault, 0);
  }

  lemma NothingRetired(crc: Crc, w: Service, fault: RetireFault)
    requires Room(w.m, |MutationsOf([])|)
    ensures RetireRound(crc, w, [], fault) == w
  {
  }

  lemma ServesRound(crc: Crc, interval: nat, w: Service, queue: seq<Slot>, i: nat,
                    faults: nat -> RoundFault, round: nat)
    requires i <= |queue| && Room(w.m, Load(queue[i..]))
    ensures NextMessage(queue, i) == |queue| ==> Serve(crc, interval, w, queue, i, faults, round) == w
    ensures NextMessage(queue, i) < |queue| ==>
              var n := RoundEnd(queue, i);
              && Room(w.m, Load(queue[i..n]))
              && Room(Round(crc, interval, w, queue[i..n], faults(round)).m, Load(queue[n..]))
              && Serve(crc, interval, w, queue, i, faults, round) ==
                 Serve(crc, interval, Round(crc, interval, w, queue[i..n], faults(round)), queue, n, faults, round + 1)
  {
    hide Round, Load, NextMessage, RoundEnd;
    if NextMessage(queue, i) < |queue| {
      var n := RoundEnd(queue, i);
      LoadSplits(queue, i, n);
      RoundTakesRoom(crc, interval, w, queue[i..n], faults(round), Load(queue[n..]));
    }
  }

  lemma SkipsGap(queue: seq<Slot>, i: nat)
    requires i < |queue| && queue[i].Gap?
    ensures NextMessage(queue, i) == NextMessage(queue, i + 1)
  {
  }

  lemma StopsAtMessage(queue: seq<Slot>, i: nat)
    requires i <= |queue| && (i < |queue| ==> queue[i].Waiting?)
    ensures NextMessage(queue, i) == i
  {
  }

  lemma FillsNext(queue: seq<Slot>, n: nat, count: nat)
    requires n <= |queue|
    ensures Filled(queue, n, count) ==
            if count >= MAX_BATCH || n == |queue| then n
            else if queue[n].Gap? then n + 1
            else Filled(queue, n + 1, count + |WriteOf(queue[n])|)
  {
  }

  lemma NothingDisplaced(checkpoints: seq<nat>)
    ensures checkpoints + [] == checkpoints
  {
  }

  lemma Displaced(checkpoints: seq<nat>, id: nat)
    ensures Replaced(checkpoints + [id]) ==
            Replaced(checkpoints) + if checkpoints == [] then [] else [Shutdown(Last(checkpoints))]
  {
    Snoc(checkpoints, id);
    if checkpoints != [] {
      assert Dropped(checkpoints) == Dropped(Front(checkpoints)) + [Shutdown(Last(checkpoints))];
    }
  }

  lemma {:induction false} GapsGather(queue: seq<Slot>, i: nat, before: seq<Answer>)
    requires i <= |queue|
    ensures Writes(queue[i..NextMessage(queue, i)]) == [] && Checkpoints(queue[i..NextMessage(queue, i)]) == []
    ensures before + Replaced([]) == before
  {
    WriterGuarantees.OnlyGapsBefore(queue, i);
  }
}
