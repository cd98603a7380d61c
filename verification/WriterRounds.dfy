/**
 What the writer thread does with its queue: how messages are gathered into rounds, what
 one round does to the log, and which answers it gives.
 */
module WriterRounds {
  import opened Wrappers
  import opened Sequences
  import opened ByteStrings
  import opened Revisions
  import opened Mutations
  import opened Frames
  import opened LogRecords
  import opened Segments
  import opened Stores
  import opened LogMachine
  import opened KvStores

  const MAX_BATCH: nat := 256

  datatype Request = Request(id: nat, mutations: seq<Mutation>)

  datatype Message = Write(request: Request) | Checkpoint(id: nat)

  /** What polling the queue finds in turn: a message, or for the moment nothing. */
  datatype Slot = Waiting(message: Message) | Gap

  datatype WalError = CorruptRecord | Io | ApplyRefused

  /** A reply recorded on its caller's channel; `Shutdown` is a channel dropped unanswered. */
  datatype Answer =
    | Wrote(id: nat, outcome: Result<seq<Revision>, WalError>)
    | Compacted(id: nat, removed: Result<nat, WalError>)
    | Shutdown(id: nat)

  // ---- Gathering a round --------------------------------------------------------------------

  function WriteOf(slot: Slot): (r: seq<Request>)
    ensures |r| <= 1
  {
    if slot.Waiting? && slot.message.Write? then [slot.message.request] else []
  }

  function CheckpointIn(slot: Slot): seq<nat> {
    if slot.Waiting? && slot.message.Checkpoint? then [slot.message.id] else []
  }

  function Writes(slots: seq<Slot>): seq<Request> {
    if slots == [] then [] else Writes(Front(slots)) + WriteOf(Last(slots))
  }

  function Checkpoints(slots: seq<Slot>): seq<nat> {
    if slots == [] then [] else Checkpoints(Front(slots)) + CheckpointIn(Last(slots))
  }

  function MutationsIn(request: Request): seq<Mutation> {
    request.mutations
  }

  function MutationsOf(requests: seq<Request>): seq<Mutation> {
    if requests == [] then [] else MutationsOf(Front(requests)) + MutationsIn(Last(requests))
  }

  /** The position of the next message. */
  function NextMessage(queue: seq<Slot>, i: nat): (n: nat)
    requires i <= |queue|
    ensures i <= n <= |queue| && (n < |queue| ==> queue[n].Waiting?)
    decreases |queue| - i
  {
    if i < |queue| && queue[i].Gap? then NextMessage(queue, i + 1) else i
  }

  /** Where a round that holds `count` writes stops taking what is waiting. */
  function Filled(queue: seq<Slot>, n: nat, count: nat): (end: nat)
    requires n <= |queue|
    ensures n <= end <= |queue|
    decreases |queue| - n
  {
    if count >= MAX_BATCH || n == |queue| then n
    else if queue[n].Gap? then n + 1
    else Filled(queue, n + 1, count + |WriteOf(queue[n])|)
  }

  /** Where the round beginning at position `i` ends, if a message is to come. */
  function RoundEnd(queue: seq<Slot>, i: nat): (end: nat)
    requires i <= |queue| && NextMessage(queue, i) < |queue|
    ensures i < end <= |queue|
  {
    var n := NextMessage(queue, i);
    Filled(queue, n + 1, |WriteOf(queue[n])|)
  }

  // ---- Retiring and answering -----------------------------------------------------------------

  /** The reply to a batch, and whether its bytes were appended. */
  function RetireReply(crc: Crc, m: Machine, batch: seq<Mutation>, fault: RetireFault)
    : (Result<seq<Revision>, WalError>, bool)
  {
    if !AllEncodable(batch) then (Err(CorruptRecord), false)
    else
      var full := m.active.written >= m.active.limit;
      if full && (fault.RollFails? || NameTaken(m, m.store.applied)) then (Err(Io), false)
      else if !AppendOk(if full then Rolled(m).active else m.active,
                        if fault.AppendFault? then fault.append else NoFault)
      then (Err(Io), false)
      else if fault.ApplyFails? then (Err(ApplyRefused), true)
      else (Ok(RevisionsOf(EventsAfter(m.store.current, batch))), true)
  }

  function Take<T>(s: seq<T>, n: nat): seq<T> {
    if n < |s| then s[..n] else s
  }

  /** Each caller's share of a batch's reply. */
  function Shares(requests: seq<Request>, reply: Result<seq<Revision>, WalError>): (answers: seq<Answer>)
    ensures |answers| == |requests|
  {
    if requests == [] then []
    else
      match reply
      case Err(e) => [Wrote(requests[0].id, Err(e))] + Shares(requests[1..], reply)
      case Ok(revisions) =>
        [Wrote(requests[0].id, Ok(Take(revisions, |requests[0].mutations|)))]
        + Shares(requests[1..], Ok(Drop(revisions, |requests[0].mutations|)))
  }

  // ---- Compacting the log ---------------------------------------------------------------------

  /** A failed checkpoint, a directory that cannot be listed, a removal that fails after some others. */
  datatype CompactFault = CheckpointFails(visible: bool) | ListFails | RemoveFails(after: nat) | Succeeds

  /** A durable checkpoint, then the removal of what it made redundant; how many segments went. */
  function CompactLog(m: Machine, fault: CompactFault): (Machine, Result<nat, WalError>)
    requires m.store.applied < U64_END
  {
    var s := CheckpointOf(m.store);
    if fault.CheckpointFails? then (if fault.visible then Committed(m, s) else m, Err(ApplyRefused))
    else
      var durable := m.(store := s, commits := [s.backend]);
      if fault.ListFails? then (durable, Err(Io))
      else
        var n := Redundant(m.Files(), s.applied);
        var removed := if fault.RemoveFails? && fault.after < n then fault.after else n;
        (durable.(sealed := m.sealed[removed..], flushed := Drop(m.flushed, removed)),
         if removed < n then Err(Io) else Ok(removed))
  }

  // ---- Whole rounds ------------------------------------------------------------------------------

  datatype RoundFault = RoundFault(retire: RetireFault, compact: CompactFault)

  /** The writer's log, the bytes appended since the last checkpoint, and the replies so far. */
  datatype Service = Service(m: Machine, appended: nat, answers: seq<Answer>)

  /** The store can number and position this many more mutations. */
  predicate Room(m: Machine, n: nat) {
    m.store.current.main + n <= I64_MAX && m.store.applied + n < U64_END
  }

  function Dropped(ids: seq<nat>): seq<Answer> {
    seq(|ids|, i requires 0 <= i < |ids| => Shutdown(ids[i]))
  }

  /** All requested checkpoints but the last are dropped as the next one replaces them. */
  function Replaced(checkpoints: seq<nat>): seq<Answer> {
    if checkpoints == [] then [] else Dropped(Front(checkpoints))
  }

  function RetireRound(crc: Crc, w: Service, requests: seq<Request>, fault: RetireFault): Service
    requires Room(w.m, |MutationsOf(requests)|)
  {
    if requests == [] then w
    else
      var batch := MutationsOf(requests);
      var (reply, wrote) := RetireReply(crc, w.m, batch, fault);
      Service(RetireBatch(crc, w.m, batch, fault).0,
              w.appended + if wrote && AllEncodable(batch) then |EncodeAll(crc, batch)| else 0,
              w.answers + Shares(requests, reply))
  }

  function CompactRound(w: Service, interval: nat, checkpoints: seq<nat>, fault: CompactFault): Service
    requires w.m.store.applied < U64_END
  {
    if checkpoints == [] && w.appended < interval then w
    else
      var (m, outcome) := CompactLog(w.m, fault);
      Service(m, if outcome.Ok? then 0 else w.appended,
              w.answers + if checkpoints == [] then [] else [Answer.Compacted(Last(checkpoints), outcome)])
  }

  lemma RetiringTakesRoom(crc: Crc, m: Machine, batch: seq<Mutation>, fault: RetireFault, more: nat)
    requires Room(m, |batch| + more)
    ensures var next := RetireBatch(crc, m, batch, fault).0;
            Room(next, more) && m.store.current.main <= next.store.current.main
  {
    hide EncodeAll, AppendTo, NameTaken, AllEncodable;
  }

  function Load(slots: seq<Slot>): nat {
    |MutationsOf(Writes(slots))|
  }

  function Round(crc: Crc, interval: nat, w: Service, slots: seq<Slot>, fault: RoundFault): Service
    requires Room(w.m, Load(slots))
  {
    var gathered := w.(answers := w.answers + Replaced(Checkpoints(slots)));
    RetiringTakesRoom(crc, w.m, MutationsOf(Writes(slots)), fault.retire, 0);
    var retired := RetireRound(crc, gathered, Writes(slots), fault.retire);
    CompactRound(retired, interval, Checkpoints(slots), fault.compact)
  }

  lemma WritesSnoc(a: seq<Slot>, slot: Slot)
    ensures Writes(a + [slot]) == Writes(a) + WriteOf(slot)
  {
    Snoc(a, slot);
  }

  lemma {:induction false} WritesConcat(a: seq<Slot>, b: seq<Slot>)
    ensures Writes(a + b) == Writes(a) + Writes(b)
  {
    hide Writes;
    if b == [] {
      assert a + b == a;
      NoWrites();
    } else {
      AppendFront(a, b);
      WritesConcat(a, Front(b));
      WritesSnoc(a + Front(b), Last(b));
      WritesSnoc(Front(b), Last(b));
      Associate(Writes(a), Writes(Front(b)), WriteOf(Last(b)));
    }
  }

  lemma NoWrites()
    ensures Writes([]) == []
  {
  }

  lemma CheckpointsSnoc(a: seq<Slot>, slot: Slot)
    ensures Checkpoints(a + [slot]) == Checkpoints(a) + CheckpointIn(slot)
  {
    Snoc(a, slot);
  }

  lemma {:induction false} CheckpointsConcat(a: seq<Slot>, b: seq<Slot>)
    ensures Checkpoints(a + b) == Checkpoints(a) + Checkpoints(b)
  {
    hide Checkpoints;
    if b == [] {
      assert a + b == a;
      NoCheckpoints();
    } else {
      AppendFront(a, b);
      CheckpointsConcat(a, Front(b));
      CheckpointsSnoc(a + Front(b), Last(b));
      CheckpointsSnoc(Front(b), Last(b));
      Associate(Checkpoints(a), Checkpoints(Front(b)), CheckpointIn(Last(b)));
    }
  }

  lemma NoCheckpoints()
    ensures Checkpoints([]) == []
  {
  }

  lemma MutationsSnoc(a: seq<Request>, request: Request)
    ensures MutationsOf(a + [request]) == MutationsOf(a) + MutationsIn(request)
  {
    Snoc(a, request);
  }

  lemma {:induction false} MutationsConcat(a: seq<Request>, b: seq<Request>)
    ensures MutationsOf(a + b) == MutationsOf(a) + MutationsOf(b)
  {
    hide MutationsOf;
    if b == [] {
      assert a + b == a;
      NoMutations();
    } else {
      AppendFront(a, b);
      MutationsConcat(a, Front(b));
      MutationsSnoc(a + Front(b), Last(b));
      MutationsSnoc(Front(b), Last(b));
      Associate(MutationsOf(a), MutationsOf(Front(b)), MutationsIn(Last(b)));
    }
  }

  lemma NoMutations()
    ensures MutationsOf([]) == []
  {
  }

  lemma LoadSplits(queue: seq<Slot>, i: nat, n: nat)
    requires i <= n <= |queue|
    ensures Load(queue[i..]) == Load(queue[i..n]) + Load(queue[n..])
  {
    assert queue[i..] == queue[i..n] + queue[n..];
    WritesConcat(queue[i..n], queue[n..]);
    MutationsConcat(Writes(queue[i..n]), Writes(queue[n..]));
  }

  lemma RoundTakesRoom(crc: Crc, interval: nat, w: Service, slots: seq<Slot>, fault: RoundFault, more: nat)
    requires Room(w.m, Load(slots) + more)
    ensures Room(Round(crc, interval, w, slots, fault).m, more)
  {
    hide EncodeAll, RetireBatch, NameTaken, AllEncodable, Redundant, Writes, MutationsOf, Checkpoints;
    RetiringTakesRoom(crc, w.m, MutationsOf(Writes(slots)), fault.retire, more);
  }

  /** Serves the queue from position `i` to its end, round after round. */
  function Serve(crc: Crc, interval: nat, w: Service, queue: seq<Slot>, i: nat,
                 faults: nat -> RoundFault, round: nat): Service
    requires i <= |queue| && Room(w.m, Load(queue[i..]))
    decreases |queue| - i
  {
    if NextMessage(queue, i) == |queue| then w
    else
      var n := RoundEnd(queue, i);
      LoadSplits(queue, i, n);
      RoundTakesRoom(crc, interval, w, queue[i..n], faults(round), Load(queue[n..]));
      Serve(crc, interval, Round(crc, interval, w, queue[i..n], faults(round)), queue, n, faults, round + 1)
  }
}
