/**
 What becomes of checkpoint requests in the writer's queue: one that another joins in its
 round is displaced, and its channel dropped unanswered.
 */
module WriterCheckpoints {
  import opened Wrappers
  import opened Sequences
  import opened Frames
  import opened LogRecords
  import opened LogMachine
  import opened WriterRounds
  import opened WriterGuarantees

  predicate Asks(slot: Slot) {
    slot.Waiting? && slot.message.Checkpoint?
  }

  /** Whether the round that takes position `p`, serving from position `i`, also takes `q`. */
  predicate SameRound(queue: seq<Slot>, i: nat, p: nat, q: nat)
    requires i <= |queue|
    decreases |queue| - i
  {
    NextMessage(queue, i) < |queue| &&
    var n := RoundEnd(queue, i);
    if p < n then i <= p && q < n else SameRound(queue, n, p, q)
  }

  /** Request `id` waits at `p`, and another is taken after it by the same round. */
  predicate Displaced(queue: seq<Slot>, i: nat, p: nat, q: nat, id: nat)
    requires i <= |queue|
  {
    && i <= p < q < |queue| && queue[p] == Waiting(Message.Checkpoint(id)) && Asks(queue[q])
    && SameRound(queue, i, p, q)
  }

  // ---- In one round ---------------------------------------------------------------------------------

  predicate AsksAt(slots: seq<Slot>, p: nat, id: nat) {
    p < |slots| && slots[p] == Waiting(Message.Checkpoint(id))
  }

  lemma {:induction false} AskedOnce(slots: seq<Slot>, id: nat)
    ensures id in Checkpoints(slots) <==> exists p :: AsksAt(slots, p, id)
  {
    if slots != [] {
      var front := Front(slots);
      AskedOnce(front, id);
      if p: nat :| AsksAt(front, p, id) { assert AsksAt(slots, p, id); }
      if id in CheckpointIn(Last(slots)) { assert AsksAt(slots, |front|, id); }
      if p: nat :| AsksAt(slots, p, id) { assert p < |front| ==> AsksAt(front, p, id); }
    }
  }

  predicate AsksBefore(slots: seq<Slot>, p: nat, q: nat, id: nat) {
    AsksAt(slots, p, id) && p < q < |slots| && Asks(slots[q])
  }

  /** All but the last of a round's requests are those another follows. */
  lemma {:induction false} AskedBefore(slots: seq<Slot>, id: nat)
    ensures Checkpoints(slots) != [] && id in Front(Checkpoints(slots)) <==> exists p, q :: AsksBefore(slots, p, q, id)
  {
    hide Checkpoints;
    NoCheckpoints();
    if slots != [] {
      var front, n := Front(slots), |slots| - 1;
      AppendFront([], slots);
      CheckpointsSnoc(front, Last(slots));
      if Asks(Last(slots)) {
        Snoc(Checkpoints(front), Last(slots).message.id);
        AskedOnce(front, id);
        if p: nat :| AsksAt(front, p, id) { assert AsksBefore(slots, p, n, id); }
        if p: nat, q: nat :| AsksBefore(slots, p, q, id) { assert AsksAt(front, p, id); }
      } else {
        AskedBefore(front, id);
        assert Checkpoints(slots) == Checkpoints(front);
        if p: nat, q: nat :| AsksBefore(front, p, q, id) { assert AsksBefore(slots, p, q, id); }
        if p: nat, q: nat :| AsksBefore(slots, p, q, id) { assert AsksBefore(front, p, q, id); }
      }
    }
  }

  lemma RoundDrops(crc: Crc, interval: nat, w: Service, slots: seq<Slot>, fault: RoundFault, id: nat)
    requires Room(w.m, Load(slots))
    ensures w.answers <= Round(crc, interval, w, slots, fault).answers
    ensures Shutdown(id) in Drop(Round(crc, interval, w, slots, fault).answers, |w.answers|) <==>
            exists p, q :: AsksBefore(slots, p, q, id)
  {
    hide Round, Writes, Checkpoints, RetireReply, Shares, WriteReplies, MutationsOf;
    RoomForWrites(w, slots);
    var last := RoundReplies(crc, interval, w, slots, fault);
    var replaced, replies := Replaced(Checkpoints(slots)), WriteReplies(crc, w, Writes(slots), fault.retire);
    AskedBefore(slots, id);
    RepliesAreWrites(crc, w, Writes(slots), fault.retire);
    assert Drop(Round(crc, interval, w, slots, fault).answers, |w.answers|) == replaced + replies + last;
    assert Shutdown(id) in replaced <==> Checkpoints(slots) != [] && id in Front(Checkpoints(slots)) by {
      DroppedIds(Checkpoints(slots), id);
    }
  }

  lemma RepliesAreWrites(crc: Crc, w: Service, requests: seq<Request>, fault: RetireFault)
    requires Room(w.m, |MutationsOf(requests)|)
    ensures forall a :: a in WriteReplies(crc, w, requests, fault) ==> a.Wrote?
  {
    hide MutationsOf, RetireReply, Shares;
    SharesAreWrites(requests, RetireReply(crc, w.m, MutationsOf(requests), fault).0);
  }

  lemma DroppedIds(checkpoints: seq<nat>, id: nat)
    ensures Shutdown(id) in Replaced(checkpoints) <==> checkpoints != [] && id in Front(checkpoints)
  {
    if checkpoints != [] && id in Front(checkpoints) {
      var i :| 0 <= i < |Front(checkpoints)| && Front(checkpoints)[i] == id;
      assert Dropped(Front(checkpoints))[i] == Shutdown(id);
    }
  }

  // ---- Over the whole queue ---------------------------------------------------------------------------

  lemma DisplacedNow(queue: seq<Slot>, i: nat, id: nat)
    requires i <= |queue| && NextMessage(queue, i) < |queue|
    ensures var n := RoundEnd(queue, i);
            (exists p, q :: Displaced(queue, i, p, q, id)) <==>
            (exists p, q :: AsksBefore(queue[i..n], p, q, id)) || (exists p, q :: Displaced(queue, n, p, q, id))
  {
    hide RoundEnd, NextMessage;
    var n := RoundEnd(queue, i);
    var slots := queue[i..n];
    if p: nat, q: nat :| Displaced(queue, i, p, q, id) {
      if p < n {
        assert AsksBefore(slots, p - i, q - i, id);
      } else {
        assert Displaced(queue, n, p, q, id);
      }
    }
    if p: nat, q: nat :| AsksBefore(slots, p, q, id) { assert Displaced(queue, i, i + p, i + q, id); }
    if p: nat, q: nat :| Displaced(queue, n, p, q, id) { assert Displaced(queue, i, p, q, id); }
  }

  /**
   Over a whole run a checkpoint request's channel is dropped unanswered if and only if a
   later request was taken by its round.
   */
  lemma {:induction false} DroppedExactly(crc: Crc, interval: nat, w: Service, queue: seq<Slot>, i: nat,
                                          faults: nat -> RoundFault, round: nat, id: nat)
    requires i <= |queue| && Room(w.m, Load(queue[i..]))
    ensures w.answers <= Serve(crc, interval, w, queue, i, faults, round).answers
    ensures Shutdown(id) in Drop(Serve(crc, interval, w, queue, i, faults, round).answers, |w.answers|) <==>
            exists p, q :: Displaced(queue, i, p, q, id)
    decreases |queue| - i
  {
    hide Round, Load, RoundEnd, NextMessage, Serve, Room, Drop, Displaced, AsksBefore;
    ServesOn(crc, interval, w, queue, i, faults, round);
    var end := Serve(crc, interval, w, queue, i, faults, round);
    if NextMessage(queue, i) == |queue| {
      NothingAfter(w.answers);
      NoneDisplaced(queue, i, id);
    } else {
      var n := RoundEnd(queue, i);
      var next := Round(crc, interval, w, queue[i..n], faults(round));
      RoundDrops(crc, interval, w, queue[i..n], faults(round), id);
      DroppedExactly(crc, interval, next, queue, n, faults, round + 1, id);
      DisplacedNow(queue, i, id);
      SinceSplits(w.answers, next.answers, end.answers);
    }
  }

  lemma NoneDisplaced(queue: seq<Slot>, i: nat, id: nat)
    requires i <= |queue| && NextMessage(queue, i) == |queue|
    ensures !exists p, q :: Displaced(queue, i, p, q, id)
  {
  }

  /** Two requests waiting together: the first is dropped, the second answered. */
  lemma FirstOfTwoDropped(crc: Crc, interval: nat, w: Service, first: nat, second: nat, faults: nat -> RoundFault)
    requires Room(w.m, 0)
    ensures var queue := [Waiting(Message.Checkpoint(first)), Waiting(Message.Checkpoint(second))];
            && Room(w.m, Load(queue[0..]))
            && var answers := Serve(crc, interval, w, queue, 0, faults, 0).answers;
               w.answers <= answers && Shutdown(first) in Drop(answers, |w.answers|)
  {
    hide Serve, Room;
    var queue := [Waiting(Message.Checkpoint(first)), Waiting(Message.Checkpoint(second))];
    NoWritesLoad(queue);
    assert queue[0..] == queue;
    assert RoundEnd(queue, 0) == 2 by { assert Filled(queue, 2, 0) == 2; }
    assert Displaced(queue, 0, 0, 1, first);
    DroppedExactly(crc, interval, w, queue, 0, faults, 0, first);
  }

  lemma NoWritesLoad(slots: seq<Slot>)
    requires forall i :: 0 <= i < |slots| ==> Asks(slots[i])
    ensures Load(slots) == 0
  {
    NoneAreWrites(slots);
  }

  lemma {:induction false} NoneAreWrites(slots: seq<Slot>)
    requires forall i :: 0 <= i < |slots| ==> Asks(slots[i])
    ensures Writes(slots) == []
  {
    if slots != [] {
      assert Asks(slots[|slots| - 1]);
      NoneAreWrites(Front(slots));
    }
  }

  // ---- What a checkpoint is answered --------------------------------------------------------------

  /** A round that was asked for a checkpoint ends with its answer, and that is how many segments went. */
  lemma AnsweredWhatWasFreed(crc: Crc, interval: nat, w: Service, slots: seq<Slot>, fault: RoundFault)
    requires Room(w.m, Load(slots)) && Checkpoints(slots) != []
    ensures var next := Round(crc, interval, w, slots, fault);
            var before := RetireRound(crc, w, Writes(slots), fault.retire).m;
            && next.answers != [] && Last(next.answers).Compacted? && Last(next.answers).id == Last(Checkpoints(slots))
            && var removed := Last(next.answers).removed;
               && (removed.Ok? ==>
                     && |next.m.sealed| + removed.value == |before.sealed| && next.appended == 0
                     && next.m.store.current == before.store.current && next.m.store.applied == before.store.applied
                     && next.m.commits == [next.m.store.backend])
               && (removed == Err(ApplyRefused) <==> fault.compact.CheckpointFails?)
               && (removed == Err(Io) <==>
                     || fault.compact.ListFails?
                     || (fault.compact.RemoveFails? &&
                         fault.compact.after < Redundant(before.Files(), before.store.applied)))
               && removed != Err(CorruptRecord)
  {
    hide RetireBatch, RetireReply, Shares, Writes, Checkpoints, MutationsOf, EncodeAll, AllEncodable, Replaced;
    RoomForWrites(w, slots);
    RetiringTakesRoom(crc, w.m, MutationsOf(Writes(slots)), fault.retire, 0);
  }
}
