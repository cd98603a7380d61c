/** What callers of the writer can rely on over a whole run of its queue. */
module WriterGuarantees {
  import opened Wrappers
  import opened Sequences
  import opened ByteStrings
  import opened Revisions
  import opened Mutations
  import opened Frames
  import opened LogRecords
  import opened Segments
  import opened Stores
  import opened LogMachine
  import opened KvStores
  import opened WriterRounds

  // ---- Rounds ---------------------------------------------------------------------------------

  lemma {:induction false} FilledCounts(queue: seq<Slot>, i: nat, n: nat, count: nat)
    requires i < n <= |queue| && count == |Writes(queue[i..n])| <= MAX_BATCH
    ensures var end := Filled(queue, n, count);
            && |Writes(queue[i..end])| <= MAX_BATCH
            && (end == |queue| || queue[end - 1].Gap? || |Writes(queue[i..end])| == MAX_BATCH)
    decreases |queue| - n
  {
    hide Writes, WriteOf;
    if count < MAX_BATCH && n < |queue| {
      assert queue[i..n + 1] == queue[i..n] + [queue[n]];
      WritesSnoc(queue[i..n], queue[n]);
      if queue[n].Waiting? {
        FilledCounts(queue, i, n + 1, count + |WriteOf(queue[n])|);
      } else {
        OneGap(queue[n]);
      }
    }
  }

  lemma OneGap(slot: Slot)
    requires slot.Gap?
    ensures WriteOf(slot) == [] && Writes([slot]) == [] && Checkpoints([slot]) == []
  {
    Snoc([], slot);
    assert Front([slot]) == [];
  }

  lemma {:induction false} OnlyGapsBefore(queue: seq<Slot>, i: nat)
    requires i <= |queue|
    ensures Writes(queue[i..NextMessage(queue, i)]) == [] && Checkpoints(queue[i..NextMessage(queue, i)]) == []
    decreases |queue| - i
  {
    hide Writes, Checkpoints;
    var n := NextMessage(queue, i);
    if i < |queue| && queue[i].Gap? {
      OnlyGapsBefore(queue, i + 1);
      assert queue[i..n] == [queue[i]] + queue[i + 1..n];
      WritesConcat([queue[i]], queue[i + 1..n]);
      CheckpointsConcat([queue[i]], queue[i + 1..n]);
      OneGap(queue[i]);
    } else {
      assert queue[i..n] == [];
      NoWrites();
      NoCheckpoints();
    }
  }

  /** A round holds at most 256 writes, and closes only when it holds that many or nothing is waiting. */
  lemma RoundIsBounded(queue: seq<Slot>, i: nat)
    requires i <= |queue| && NextMessage(queue, i) < |queue|
    ensures var end := RoundEnd(queue, i);
            && |Writes(queue[i..end])| <= 256
            && (end == |queue| || queue[end - 1].Gap? || |Writes(queue[i..end])| == 256)
  {
    hide Filled, NextMessage, WriteOf, Writes;
    var n := NextMessage(queue, i);
    OnlyGapsBefore(queue, i);
    assert queue[i..n + 1] == queue[i..n] + [queue[n]];
    WritesSnoc(queue[i..n], queue[n]);
    FilledCounts(queue, i, n + 1, |WriteOf(queue[n])|);
  }

  // ---- Each caller's share ----------------------------------------------------------------------

  /** The revisions numbered past `from`, up to and including `to`. */
  function Numbered(from: nat, to: nat): seq<Revision>
    requires from <= to
  {
    seq(to - from, i requires 0 <= i < to - from => Revision(from + i + 1, 0))
  }

  /** The revisions a batch of some length takes. */
  lemma BatchIsNumbered(current: Revision, batch: seq<Mutation>)
    ensures RevisionsOf(EventsAfter(current, batch)) == Numbered(current.main, current.main + |batch|)
  {
  }

  lemma NumberedSplits(a: nat, b: nat, c: nat)
    requires a <= b <= c
    ensures Numbered(a, c) == Numbered(a, b) + Numbered(b, c)
    ensures Take(Numbered(a, c), b - a) == Numbered(a, b) && Drop(Numbered(a, c), b - a) == Numbered(b, c)
  {
  }

  lemma MutationsFromFirst(requests: seq<Request>)
    requires requests != []
    ensures MutationsOf(requests) == requests[0].mutations + MutationsOf(requests[1..])
  {
    assert requests == [requests[0]] + requests[1..];
    MutationsConcat([requests[0]], requests[1..]);
    MutationsSnoc([], requests[0]);
    NoMutations();
    assert [] + [requests[0]] == [requests[0]];
    assert [] + requests[0].mutations == requests[0].mutations;
  }

  /** Each caller gets exactly the revisions of its own mutations, in order. */
  lemma {:induction false} SharesAreOwn(requests: seq<Request>, from: nat, j: nat)
    requires j < |requests|
    ensures var total := |MutationsOf(requests)|;
            var start := from + |MutationsOf(requests[..j])|;
            Shares(requests, Ok(Numbered(from, from + total)))[j] ==
            Wrote(requests[j].id, Ok(Numbered(start, start + |requests[j].mutations|)))
  {
    hide Shares, MutationsOf, Numbered, Take, Drop;
    var mine, to := |requests[0].mutations|, from + |MutationsOf(requests)|;
    MutationsFromFirst(requests);
    NumberedSplits(from, from + mine, to);
    FirstShare(requests, Ok(Numbered(from, to)));
    NoMutations();
    if j > 0 {
      SharesAreOwn(requests[1..], from + mine, j - 1);
      assert requests[1..][..j - 1] == requests[..j][1..];
      MutationsFromFirst(requests[..j]);
    }
  }

  function CarriedBy(a: Answer): seq<Revision> {
    if a.Wrote? && a.outcome.Ok? then a.outcome.value else []
  }

  /** The revisions replies carry, in reply order. */
  function AnsweredRevisions(answers: seq<Answer>): seq<Revision> {
    if answers == [] then [] else AnsweredRevisions(Front(answers)) + CarriedBy(Last(answers))
  }

  function Writer(a: Answer): seq<nat> {
    if a.Wrote? then [a.id] else []
  }

  /** The callers whose writes have been answered, in reply order. */
  function WroteIds(answers: seq<Answer>): seq<nat> {
    if answers == [] then [] else WroteIds(Front(answers)) + Writer(Last(answers))
  }

  function Checkpointer(a: Answer): seq<nat> {
    if a.Wrote? then [] else [a.id]
  }

  /** The callers whose checkpoints have been answered or dropped, in that order. */
  function CheckpointIds(answers: seq<Answer>): seq<nat> {
    if answers == [] then [] else CheckpointIds(Front(answers)) + Checkpointer(Last(answers))
  }

  function Ids(requests: seq<Request>): seq<nat> {
    seq(|requests|, i requires 0 <= i < |requests| => requests[i].id)
  }

  lemma RevisionsSnoc(a: seq<Answer>, answer: Answer)
    ensures AnsweredRevisions(a + [answer]) == AnsweredRevisions(a) + CarriedBy(answer)
  {
    Snoc(a, answer);
  }

  lemma {:induction false} RevisionsConcat(a: seq<Answer>, b: seq<Answer>)
    ensures AnsweredRevisions(a + b) == AnsweredRevisions(a) + AnsweredRevisions(b)
  {
    hide AnsweredRevisions;
    if b == [] {
      assert a + b == a;
      NoRevisions();
    } else {
      AppendFront(a, b);
      RevisionsConcat(a, Front(b));
      RevisionsSnoc(a + Front(b), Last(b));
      RevisionsSnoc(Front(b), Last(b));
      Associate(AnsweredRevisions(a), AnsweredRevisions(Front(b)), CarriedBy(Last(b)));
    }
  }

  lemma NoRevisions()
    ensures AnsweredRevisions([]) == []
  {
  }

  lemma WroteSnoc(a: seq<Answer>, answer: Answer)
    ensures WroteIds(a + [answer]) == WroteIds(a) + Writer(answer)
  {
    Snoc(a, answer);
  }

  lemma {:induction false} WroteConcat(a: seq<Answer>, b: seq<Answer>)
    ensures WroteIds(a + b) == WroteIds(a) + WroteIds(b)
  {
    hide WroteIds;
    if b == [] {
      assert a + b == a;
      NoWrote();
    } else {
      AppendFront(a, b);
      WroteConcat(a, Front(b));
      WroteSnoc(a + Front(b), Last(b));
      WroteSnoc(Front(b), Last(b));
      Associate(WroteIds(a), WroteIds(Front(b)), Writer(Last(b)));
    }
  }

  lemma NoWrote()
    ensures WroteIds([]) == []
  {
  }

  lemma CheckpointIdsSnoc(a: seq<Answer>, answer: Answer)
    ensures CheckpointIds(a + [answer]) == CheckpointIds(a) + Checkpointer(answer)
  {
    Snoc(a, answer);
  }

  lemma {:induction false} CheckpointIdsConcat(a: seq<Answer>, b: seq<Answer>)
    ensures CheckpointIds(a + b) == CheckpointIds(a) + CheckpointIds(b)
  {
    hide CheckpointIds;
    if b == [] {
      assert a + b == a;
      NoCheckpointIds();
    } else {
      AppendFront(a, b);
      CheckpointIdsConcat(a, Front(b));
      CheckpointIdsSnoc(a + Front(b), Last(b));
      CheckpointIdsSnoc(Front(b), Last(b));
      Associate(CheckpointIds(a), CheckpointIds(Front(b)), Checkpointer(Last(b)));
    }
  }

  lemma NoCheckpointIds()
    ensures CheckpointIds([]) == []
  {
  }

  lemma AnsweredConcat(a: seq<Answer>, b: seq<Answer>)
    ensures AnsweredRevisions(a + b) == AnsweredRevisions(a) + AnsweredRevisions(b)
    ensures WroteIds(a + b) == WroteIds(a) + WroteIds(b)
    ensures CheckpointIds(a + b) == CheckpointIds(a) + CheckpointIds(b)
  {
    RevisionsConcat(a, b);
    WroteConcat(a, b);
    CheckpointIdsConcat(a, b);
  }

  lemma OneAnswer(a: Answer)
    ensures AnsweredRevisions([a]) == CarriedBy(a) && WroteIds([a]) == Writer(a)
    ensures CheckpointIds([a]) == Checkpointer(a)
  {
    Snoc([], a);
    assert Front([a]) == [];
  }

  lemma NoAnswers()
    ensures AnsweredRevisions([]) == [] && WroteIds([]) == [] && CheckpointIds([]) == []
  {
  }

  lemma FirstShare(requests: seq<Request>, reply: Result<seq<Revision>, WalError>)
    requires requests != []
    ensures var a := Shares(requests, reply)[0];
            var rest := if reply.Err? then reply else Ok(Drop(reply.value, |requests[0].mutations|));
            && Shares(requests, reply) == [a] + Shares(requests[1..], rest)
            && a == Wrote(requests[0].id, if reply.Err? then reply else Ok(Take(reply.value, |requests[0].mutations|)))
  {
  }

  /** A batch's replies go to its callers in order, and no checkpoint is among them. */
  lemma {:induction false} SharesAnswerAll(requests: seq<Request>, reply: Result<seq<Revision>, WalError>)
    ensures WroteIds(Shares(requests, reply)) == Ids(requests) && CheckpointIds(Shares(requests, reply)) == []
    ensures reply.Err? ==> AnsweredRevisions(Shares(requests, reply)) == []
  {
    hide Shares, AnsweredRevisions, WroteIds, CheckpointIds;
    NoAnswers();
    if requests == [] {
      NoShares(reply);
    } else {
      FirstShare(requests, reply);
      var rest := if reply.Err? then reply else Ok(Drop(reply.value, |requests[0].mutations|));
      SharesAnswerAll(requests[1..], rest);
      OneAnswer(Shares(requests, reply)[0]);
      AnsweredConcat([Shares(requests, reply)[0]], Shares(requests[1..], rest));
      assert Ids(requests) == [requests[0].id] + Ids(requests[1..]);
    }
  }

  lemma NoShares(reply: Result<seq<Revision>, WalError>)
    ensures Shares([], reply) == []
  {
  }

  /** The first callers of a batch between them get its first revisions; all of them, all of it. */
  lemma {:induction false} SharesUpTo(requests: seq<Request>, reply: Result<seq<Revision>, WalError>, from: nat, k: nat)
    requires k <= |requests|
    requires reply.Ok? ==> reply.value == Numbered(from, from + |MutationsOf(requests)|)
    ensures WroteIds(Shares(requests, reply)[..k]) == Ids(requests[..k])
    ensures AnsweredRevisions(Shares(requests, reply)[..k]) ==
            if reply.Ok? then Numbered(from, from + |MutationsOf(requests[..k])|) else []
  {
    hide Shares, Numbered, Take, Drop, AnsweredRevisions, WroteIds, CheckpointIds, MutationsOf;
    NoAnswers();
    if k == 0 {
      NoMutations();
      NoneNumbered(from);
      assert Shares(requests, reply)[..0] == [] && requests[..0] == [];
    } else {
      var mine := |requests[0].mutations|;
      var rest := if reply.Err? then reply else Ok(Drop(reply.value, mine));
      MutationsFromFirst(requests);
      MutationsFromFirst(requests[..k]);
      assert requests[..k][1..] == requests[1..][..k - 1];
      if reply.Ok? {
        NumberedSplits(from, from + mine, from + |MutationsOf(requests)|);
        NumberedSplits(from, from + mine, from + |MutationsOf(requests[..k])|);
      }
      FirstShare(requests, reply);
      SharesUpTo(requests[1..], rest, from + mine, k - 1);
      var first := Shares(requests, reply)[0];
      OneAnswer(first);
      AnsweredConcat([first], Shares(requests[1..], rest)[..k - 1]);
      assert Shares(requests, reply)[..k] == [first] + Shares(requests[1..], rest)[..k - 1];
      assert Ids(requests[..k]) == [requests[0].id] + Ids(requests[1..][..k - 1]);
    }
  }

  lemma NoneNumbered(from: nat)
    ensures Numbered(from, from) == []
  {
  }

  // ---- One round's replies -------------------------------------------------------------------------

  lemma {:induction false} DroppedAnswers(ids: seq<nat>)
    ensures WroteIds(Dropped(ids)) == [] && CheckpointIds(Dropped(ids)) == ids && AnsweredRevisions(Dropped(ids)) == []
  {
    hide AnsweredRevisions, WroteIds, CheckpointIds;
    NoAnswers();
    if ids == [] {
      assert Dropped(ids) == [];
    } else {
      var last := Shutdown(Last(ids));
      DroppedAnswers(Front(ids));
      assert Dropped(ids) == Dropped(Front(ids)) + [last];
      AnsweredConcat(Dropped(Front(ids)), [last]);
      OneAnswer(last);
      AppendFront([], ids);
    }
  }

  /** The replies of a round: replaced checkpoints, then its writes, then its checkpoint. */
  function WriteReplies(crc: Crc, w: Service, requests: seq<Request>, fault: RetireFault): seq<Answer>
    requires Room(w.m, |MutationsOf(requests)|)
  {
    if requests == [] then [] else Shares(requests, RetireReply(crc, w.m, MutationsOf(requests), fault).0)
  }

  lemma RoundReplies(crc: Crc, interval: nat, w: Service, slots: seq<Slot>, fault: RoundFault)
    returns (last: seq<Answer>)
    requires Room(w.m, Load(slots))
    ensures Round(crc, interval, w, slots, fault).answers ==
            w.answers + Replaced(Checkpoints(slots)) + WriteReplies(crc, w, Writes(slots), fault.retire) + last
    ensures if Checkpoints(slots) == [] then last == []
            else |last| == 1 && last[0].Compacted? && last[0].id == Last(Checkpoints(slots))
  {
    hide EncodeAll, RetireBatch, NameTaken, AllEncodable, Redundant, Writes, MutationsOf, Checkpoints, CompactLog,
      Shares, RetireReply, Replaced;
    RetiringTakesRoom(crc, w.m, MutationsOf(Writes(slots)), fault.retire, 0);
    var gathered := w.(answers := w.answers + Replaced(Checkpoints(slots)));
    var retired := RetireRound(crc, gathered, Writes(slots), fault.retire);
    last := if Checkpoints(slots) == [] then []
      else [Answer.Compacted(Last(Checkpoints(slots)), CompactLog(retired.m, fault.compact).1)];
    assert Round(crc, interval, w, slots, fault).answers == retired.answers + last;
  }

  lemma ReplacedAnswers(checkpoints: seq<nat>, last: seq<Answer>)
    requires if checkpoints == [] then last == []
             else |last| == 1 && last[0].Compacted? && last[0].id == Last(checkpoints)
    ensures WroteIds(Replaced(checkpoints)) == [] && AnsweredRevisions(Replaced(checkpoints)) == []
    ensures WroteIds(last) == [] && AnsweredRevisions(last) == []
    ensures CheckpointIds(Replaced(checkpoints)) + CheckpointIds(last) == checkpoints
  {
    hide AnsweredRevisions, WroteIds, CheckpointIds;
    NoAnswers();
    if checkpoints != [] {
      DroppedAnswers(Front(checkpoints));
      OneAnswer(last[0]);
      assert last == [last[0]];
      assert checkpoints == Front(checkpoints) + [Last(checkpoints)];
    }
  }

  lemma WholeBatch(requests: seq<Request>, reply: Result<seq<Revision>, WalError>, from: nat)
    requires reply.Ok? ==> reply.value == Numbered(from, from + |MutationsOf(requests)|)
    ensures AnsweredRevisions(Shares(requests, reply)) ==
            if reply.Ok? then Numbered(from, from + |MutationsOf(requests)|) else []
  {
    hide AnsweredRevisions, MutationsOf, Numbered, Shares;
    SharesUpTo(requests, reply, from, |requests|);
    assert requests[..|requests|] == requests && Shares(requests, reply)[..|requests|] == Shares(requests, reply);
  }

  /** What a retired batch is answered is what it did to the store's revisions. */
  lemma RepliesMatchStore(crc: Crc, w: Service, requests: seq<Request>, fault: RetireFault)
    requires Room(w.m, |MutationsOf(requests)|)
    ensures w.m.store.current.main <= RetireRound(crc, w, requests, fault).m.store.current.main
    ensures AnsweredRevisions(WriteReplies(crc, w, requests, fault)) ==
            Numbered(w.m.store.current.main, RetireRound(crc, w, requests, fault).m.store.current.main)
    ensures WroteIds(WriteReplies(crc, w, requests, fault)) == Ids(requests)
    ensures CheckpointIds(WriteReplies(crc, w, requests, fault)) == []
  {
    hide Shares, RetireReply, RetireBatch, EncodeAll, AllEncodable, AnsweredRevisions, WroteIds, CheckpointIds,
      MutationsOf, Numbered;
    if requests == [] {
      NoneNumbered(w.m.store.current.main);
      NoAnswers();
    } else {
      var batch := MutationsOf(requests);
      var reply := RetireReply(crc, w.m, batch, fault).0;
      ReplyMatchesStore(crc, w.m, batch, fault);
      SharesAnswerAll(requests, reply);
      BatchIsNumbered(w.m.store.current, batch);
      WholeBatch(requests, reply, w.m.store.current.main);
      NoneNumbered(w.m.store.current.main);
    }
  }

  /** A batch is answered with revisions exactly when the log acknowledges it and its store moves on. */
  lemma ReplyMatchesStore(crc: Crc, m: Machine, batch: seq<Mutation>, fault: RetireFault)
    requires Room(m, |batch|)
    ensures var (next, acked) := RetireBatch(crc, m, batch, fault);
            var reply := RetireReply(crc, m, batch, fault).0;
            && (reply.Ok? <==> acked)
            && (acked ==> reply.value == RevisionsOf(EventsAfter(m.store.current, batch))
                          && next.store.current.main == m.store.current.main + |batch|)
            && (!acked ==> next.store == m.store)
  {
    hide EncodeAll, AppendTo, NameTaken, AllEncodable;
  }

  /** One round answers its writes in order with the next revisions, and each checkpoint once. */
  lemma RoundAnswers(crc: Crc, interval: nat, w: Service, slots: seq<Slot>, fault: RoundFault)
    requires Room(w.m, Load(slots))
    ensures var next := Round(crc, interval, w, slots, fault);
            && w.answers <= next.answers
            && w.m.store.current.main <= next.m.store.current.main
            && AnsweredRevisions(next.answers[|w.answers|..]) ==
               Numbered(w.m.store.current.main, next.m.store.current.main)
            && WroteIds(next.answers[|w.answers|..]) == Ids(Writes(slots))
            && CheckpointIds(next.answers[|w.answers|..]) == Checkpoints(slots)
  {
    hide RetireRound, RetireReply, AnsweredRevisions, WroteIds, CheckpointIds, Numbered, Writes, Checkpoints,
      WriteReplies, CompactRound, Replaced, MutationsOf;
    var last := RoundReplies(crc, interval, w, slots, fault);
    var replies := WriteReplies(crc, w, Writes(slots), fault.retire);
    var replaced := Replaced(Checkpoints(slots));
    ReplacedAnswers(Checkpoints(slots), last);
    RepliesMatchStore(crc, w, Writes(slots), fault.retire);
    AnsweredConcat(replaced, replies);
    AnsweredConcat(replaced + replies, last);
    assert Round(crc, interval, w, slots, fault).answers[|w.answers|..] == replaced + replies + last;
    RoundStore(crc, interval, w, slots, fault);
  }

  lemma RoundStore(crc: Crc, interval: nat, w: Service, slots: seq<Slot>, fault: RoundFault)
    requires Room(w.m, Load(slots))
    ensures Round(crc, interval, w, slots, fault).m.store.current ==
            RetireRound(crc, w, Writes(slots), fault.retire).m.store.current
  {
    hide EncodeAll, RetireBatch, NameTaken, AllEncodable, Redundant, Writes, MutationsOf, Checkpoints, Shares,
      RetireReply, Replaced;
    RetiringTakesRoom(crc, w.m, MutationsOf(Writes(slots)), fault.retire, 0);
  }

  // ---- A whole run ----------------------------------------------------------------------------------

  /** The replies a service has given since it had given `before`. */
  function Since(w: Service, before: nat): seq<Answer> {
    Drop(w.answers, before)
  }

  lemma SinceSplits(a: seq<Answer>, b: seq<Answer>, c: seq<Answer>)
    requires a <= b <= c
    ensures Drop(c, |a|) == Drop(b, |a|) + Drop(c, |b|)
    ensures Drop(c, |a|) == c[|a|..]
  {
  }

  /**
   Over a whole run every write is answered once, in queue order; the revisions answered,
   all taken together, are exactly those the store took, each once and without a gap; and
   every checkpoint is answered or dropped once, in order.
   */
  lemma {:induction false} EveryCallerIsAnswered(crc: Crc, interval: nat, w: Service, queue: seq<Slot>, i: nat,
                                                 faults: nat -> RoundFault, round: nat)
    requires i <= |queue| && Room(w.m, Load(queue[i..]))
    ensures var end := Serve(crc, interval, w, queue, i, faults, round);
            && w.answers <= end.answers
            && w.m.store.current.main <= end.m.store.current.main
            && AnsweredRevisions(Since(end, |w.answers|)) == Numbered(w.m.store.current.main, end.m.store.current.main)
            && WroteIds(Since(end, |w.answers|)) == Ids(Writes(queue[i..]))
            && CheckpointIds(Since(end, |w.answers|)) == Checkpoints(queue[i..])
    decreases |queue| - i
  {
    hide Round, Writes, Checkpoints, Numbered, AnsweredRevisions, WroteIds, CheckpointIds, Load, Drop, RoundEnd;
    var end := Serve(crc, interval, w, queue, i, faults, round);
    if NextMessage(queue, i) == |queue| {
      OnlyGapsBefore(queue, i);
      assert queue[i..|queue|] == queue[i..];
      NoneNumbered(w.m.store.current.main);
      NoAnswers();
      NothingAfter(w.answers);
    } else {
      var n := RoundEnd(queue, i);
      var fault := faults(round);
      LoadSplits(queue, i, n);
      RoundTakesRoom(crc, interval, w, queue[i..n], fault, Load(queue[n..]));
      RoundAnswersLoaded(crc, interval, w, queue[i..n], fault);
      var next := Round(crc, interval, w, queue[i..n], fault);
      EveryCallerIsAnswered(crc, interval, next, queue, n, faults, round + 1);
      SinceSplits(w.answers, next.answers, end.answers);
      AnsweredConcat(Drop(next.answers, |w.answers|), Drop(end.answers, |next.answers|));
      NumberedSplits(w.m.store.current.main, next.m.store.current.main, end.m.store.current.main);
      assert queue[i..] == queue[i..n] + queue[n..];
      WritesConcat(queue[i..n], queue[n..]);
      CheckpointsConcat(queue[i..n], queue[n..]);
      assert Ids(Writes(queue[i..n]) + Writes(queue[n..])) == Ids(Writes(queue[i..n])) + Ids(Writes(queue[n..]));
    }
  }

  lemma NothingAfter(answers: seq<Answer>)
    ensures Drop(answers, |answers|) == []
  {
  }

  /** As `RoundAnswers`, its replies named as those since the round began. */
  lemma RoundAnswersLoaded(crc: Crc, interval: nat, w: Service, slots: seq<Slot>, fault: RoundFault)
    requires Room(w.m, Load(slots))
    ensures var next := Round(crc, interval, w, slots, fault);
            && w.answers <= next.answers
            && w.m.store.current.main <= next.m.store.current.main
            && AnsweredRevisions(Drop(next.answers, |w.answers|)) ==
               Numbered(w.m.store.current.main, next.m.store.current.main)
            && WroteIds(Drop(next.answers, |w.answers|)) == Ids(Writes(slots))
            && CheckpointIds(Drop(next.answers, |w.answers|)) == Checkpoints(slots)
  {
    hide Round, AnsweredRevisions, WroteIds, CheckpointIds, Numbered, Writes, Checkpoints, Load;
    RoundAnswers(crc, interval, w, slots, fault);
    var next := Round(crc, interval, w, slots, fault);
    SinceSplits(w.answers, next.answers, next.answers);
  }

  // ---- Checkpoints follow the writes queued before them ----------------------------------------------

  /** The last checkpoint a round takes was queued before only some of the round's writes. */
  lemma {:induction false} LastCheckpointIn(slots: seq<Slot>) returns (p: nat)
    requires Checkpoints(slots) != []
    ensures p < |slots| && slots[p] == Waiting(Message.Checkpoint(Last(Checkpoints(slots))))
    ensures Writes(slots[..p]) <= Writes(slots)
  {
    hide Writes;
    var front := Front(slots);
    AppendFront([], slots);
    WritesSnoc(front, Last(slots));
    if CheckpointIn(Last(slots)) != [] {
      p := |slots| - 1;
    } else {
      p := LastCheckpointIn(front);
      assert slots[..p] == front[..p];
    }
  }

  lemma IdsOfPrefix(a: seq<Request>, b: seq<Request>)
    requires a <= b
    ensures Ids(a) <= Ids(b)
  {
  }

  lemma IdsConcat(a: seq<Request>, b: seq<Request>)
    ensures Ids(a + b) == Ids(a) + Ids(b)
  {
  }

  /** In one round, the checkpoint answered comes after every write of the round. */
  lemma RoundCompactsLast(crc: Crc, interval: nat, w: Service, slots: seq<Slot>, fault: RoundFault, j: nat)
    requires Room(w.m, Load(slots))
    requires |w.answers| <= j < |Round(crc, interval, w, slots, fault).answers|
    requires Round(crc, interval, w, slots, fault).answers[j].Compacted?
    ensures w.answers <= Round(crc, interval, w, slots, fault).answers
    ensures var next := Round(crc, interval, w, slots, fault);
            && Checkpoints(slots) != [] && next.answers[j].id == Last(Checkpoints(slots))
            && WroteIds(next.answers[|w.answers|..j]) == Ids(Writes(slots))
  {
    hide Round, WriteReplies, AnsweredRevisions, WroteIds, CheckpointIds, Writes, Checkpoints, Load, Replaced,
      RetireRound, Numbered;
    RoomForWrites(w, slots);
    var last := RoundReplies(crc, interval, w, slots, fault);
    var replies := WriteReplies(crc, w, Writes(slots), fault.retire);
    var replaced := Replaced(Checkpoints(slots));
    ReplacedAnswers(Checkpoints(slots), last);
    RepliesMatchStore(crc, w, Writes(slots), fault.retire);
    NotCompacted(crc, w, slots, fault.retire);
    AnsweredConcat(replaced, replies);
    var next := Round(crc, interval, w, slots, fault);
    assert next.answers == w.answers + (replaced + replies + last);
    var k := j - |w.answers|;
    var answer := next.answers[j];
    assert answer == (replaced + replies + last)[k];
    assert answer in replaced || answer in replies || k == |replaced + replies|;
    assert next.answers[|w.answers|..j] == replaced + replies;
  }

  lemma RoomForWrites(w: Service, slots: seq<Slot>)
    requires Room(w.m, Load(slots))
    ensures Room(w.m, |MutationsOf(Writes(slots))|)
  {
  }

  lemma {:induction false} SharesAreWrites(requests: seq<Request>, reply: Result<seq<Revision>, WalError>)
    ensures forall a :: a in Shares(requests, reply) ==> a.Wrote?
  {
    hide Shares;
    if requests == [] {
      NoShares(reply);
    } else {
      FirstShare(requests, reply);
      SharesAreWrites(requests[1..], if reply.Err? then reply else Ok(Drop(reply.value, |requests[0].mutations|)));
    }
  }

  lemma NotCompacted(crc: Crc, w: Service, slots: seq<Slot>, fault: RetireFault)
    requires Room(w.m, |MutationsOf(Writes(slots))|)
    ensures forall a :: a in Replaced(Checkpoints(slots)) ==> !a.Compacted?
    ensures forall a :: a in WriteReplies(crc, w, Writes(slots), fault) ==> !a.Compacted?
  {
    hide Writes, Checkpoints, MutationsOf, RetireReply, Shares;
    if Writes(slots) != [] {
      SharesAreWrites(Writes(slots), RetireReply(crc, w.m, MutationsOf(Writes(slots)), fault).0);
    }
  }

  lemma RepliesAfter(a: seq<Answer>, b: seq<Answer>, c: seq<Answer>, j: nat)
    requires a <= b <= c && |b| <= j <= |c|
    ensures c[|a|..j] == Drop(b, |a|) + c[|b|..j]
  {
  }

  /**
   A checkpoint is answered only after every write queued before it: the writes answered
   so far begin with those.
   */
  lemma {:induction false} CheckpointFollowsWrites(crc: Crc, interval: nat, w: Service, queue: seq<Slot>, i: nat,
                                                   faults: nat -> RoundFault, round: nat, j: nat) returns (p: nat)
    requires i <= |queue| && Room(w.m, Load(queue[i..]))
    requires |w.answers| <= j < |Serve(crc, interval, w, queue, i, faults, round).answers|
    requires Serve(crc, interval, w, queue, i, faults, round).answers[j].Compacted?
    ensures var end := Serve(crc, interval, w, queue, i, faults, round);
            && i <= p < |queue| && queue[p] == Waiting(Message.Checkpoint(end.answers[j].id))
            && Ids(Writes(queue[i..p])) <= WroteIds(end.answers[|w.answers|..j])
    decreases |queue| - i
  {
    hide Round, Writes, Checkpoints, AnsweredRevisions, WroteIds, CheckpointIds, Load, Drop, RoundEnd, Numbered, Ids;
    var end := Serve(crc, interval, w, queue, i, faults, round);
    var n := RoundEnd(queue, i);
    var slots, fault := queue[i..n], faults(round);
    LoadSplits(queue, i, n);
    RoundTakesRoom(crc, interval, w, slots, fault, Load(queue[n..]));
    var next := Round(crc, interval, w, slots, fault);
    RoundAnswersLoaded(crc, interval, w, slots, fault);
    EveryCallerIsAnswered(crc, interval, next, queue, n, faults, round + 1);
    if j < |next.answers| {
      assert end.answers[j] == next.answers[j] && end.answers[|w.answers|..j] == next.answers[|w.answers|..j];
      RoundCompactsLast(crc, interval, w, slots, fault, j);
      var q := LastCheckpointIn(slots);
      p := i + q;
      assert queue[i..p] == slots[..q];
      IdsOfPrefix(Writes(slots[..q]), Writes(slots));
    } else {
      p := CheckpointFollowsWrites(crc, interval, next, queue, n, faults, round + 1, j);
      assert queue[i..p] == slots + queue[n..p];
      WritesConcat(slots, queue[n..p]);
      IdsConcat(Writes(slots), Writes(queue[n..p]));
      RepliesAfter(w.answers, next.answers, end.answers, j);
      AnsweredConcat(Drop(next.answers, |w.answers|), end.answers[|next.answers|..j]);
    }
  }

  // ---- Every caller's own revisions --------------------------------------------------------------------

  /** Where a round's `k`-th write stood in the queue. */
  lemma {:induction false} NthWrite(slots: seq<Slot>, k: nat) returns (p: nat)
    requires k < |Writes(slots)|
    ensures p < |slots| && slots[p] == Waiting(Message.Write(Writes(slots)[k]))
    ensures Writes(slots[..p]) == Writes(slots)[..k]
  {
    hide Writes;
    NoWrites();
    var front := Front(slots);
    AppendFront([], slots);
    WritesSnoc(front, Last(slots));
    if k < |Writes(front)| {
      p := NthWrite(front, k);
      assert slots[..p] == front[..p];
    } else {
      p := |slots| - 1;
    }
  }

  /** The reply to one write of a round: its own revisions, numbered on from those answered before it. */
  lemma RoundAnswersOwn(crc: Crc, interval: nat, w: Service, slots: seq<Slot>, fault: RoundFault, j: nat)
    returns (k: nat)
    requires Room(w.m, Load(slots))
    requires |w.answers| <= j < |Round(crc, interval, w, slots, fault).answers|
    requires Round(crc, interval, w, slots, fault).answers[j].Wrote?
    ensures k < |Writes(slots)| && w.answers <= Round(crc, interval, w, slots, fault).answers
    ensures var answers, r := Round(crc, interval, w, slots, fault).answers, Writes(slots)[k];
            var from := w.m.store.current.main + |AnsweredRevisions(answers[|w.answers|..j])|;
            && answers[j].id == r.id
            && WroteIds(answers[|w.answers|..j]) == Ids(Writes(slots)[..k])
            && (answers[j].outcome.Ok? ==>
                  && answers[j].outcome.value == Numbered(from, from + |r.mutations|)
                  && from == w.m.store.current.main + |MutationsOf(Writes(slots)[..k])|
                  && Room(w.m, |MutationsOf(Writes(slots))|)
                  && RetireBatch(crc, w.m, MutationsOf(Writes(slots)), fault.retire).1)
  {
    hide Round, AnsweredRevisions, WroteIds, CheckpointIds, Writes, Checkpoints, Load, Replaced, RetireReply, Numbered,
      Shares, MutationsOf, Ids;
    RoomForWrites(w, slots);
    var last := RoundReplies(crc, interval, w, slots, fault);
    var requests, replaced := Writes(slots), Replaced(Checkpoints(slots));
    var replies := WriteReplies(crc, w, requests, fault.retire);
    NoneWrote(Checkpoints(slots));
    k := InMiddle(w.answers, replaced, replies, last, j);
    RepliesToWrites(crc, w, requests, fault.retire, k);
    ReplacedAnswers(Checkpoints(slots), last);
    AnsweredConcat(replaced, replies[..k]);
    NothingBefore(WroteIds(replies[..k]));
    NothingBefore(AnsweredRevisions(replies[..k]));
  }

  lemma NothingBefore<T>(s: seq<T>)
    ensures [] + s == s
  {
  }

  lemma InMiddle(before: seq<Answer>, replaced: seq<Answer>, replies: seq<Answer>, last: seq<Answer>, j: nat)
    returns (k: nat)
    requires |before| <= j < |before + replaced + replies + last| && (before + replaced + replies + last)[j].Wrote?
    requires forall a :: a in replaced || a in last ==> !a.Wrote?
    ensures var all := before + replaced + replies + last;
            && k < |replies| && before <= all && all[j] == replies[k] && all[|before|..j] == replaced + replies[..k]
  {
    var all := before + replaced + replies + last;
    var answer := all[j];
    assert answer in replaced || answer in last || |before| + |replaced| <= j < |before| + |replaced| + |replies|;
    k := j - |before| - |replaced|;
  }

  /** One of a batch's replies, and what those before it carried. */
  lemma RepliesToWrites(crc: Crc, w: Service, requests: seq<Request>, fault: RetireFault, k: nat)
    requires Room(w.m, |MutationsOf(requests)|) && k < |WriteReplies(crc, w, requests, fault)|
    ensures k < |requests|
    ensures var replies := WriteReplies(crc, w, requests, fault);
            var from := w.m.store.current.main + |AnsweredRevisions(replies[..k])|;
            && replies[k].Wrote? && replies[k].id == requests[k].id
            && WroteIds(replies[..k]) == Ids(requests[..k])
            && (replies[k].outcome.Ok? ==>
                  && replies[k].outcome.value == Numbered(from, from + |requests[k].mutations|)
                  && from == w.m.store.current.main + |MutationsOf(requests[..k])|
                  && RetireBatch(crc, w.m, MutationsOf(requests), fault).1)
  {
    hide AnsweredRevisions, WroteIds, RetireReply, RetireBatch, Numbered, Shares, MutationsOf, Ids, EventsAfter;
    var batch, from := MutationsOf(requests), w.m.store.current.main;
    var reply := RetireReply(crc, w.m, batch, fault).0;
    ReplyMatchesStore(crc, w.m, batch, fault);
    BatchIsNumbered(w.m.store.current, batch);
    SharesUpTo(requests, reply, from, k);
    ShareOf(requests, reply, from, k);
    LengthNumbered(from, from + |MutationsOf(requests[..k])|);
  }

  lemma LengthNumbered(from: nat, to: nat)
    requires from <= to
    ensures |Numbered(from, to)| == to - from
  {
  }

  lemma NoneWrote(checkpoints: seq<nat>)
    ensures forall a :: a in Replaced(checkpoints) ==> !a.Wrote?
  {
  }

  lemma ShareOf(requests: seq<Request>, reply: Result<seq<Revision>, WalError>, from: nat, k: nat)
    requires k < |requests|
    requires reply.Ok? ==> reply.value == Numbered(from, from + |MutationsOf(requests)|)
    ensures var start := from + |MutationsOf(requests[..k])|;
            Shares(requests, reply)[k] ==
            Wrote(requests[k].id, if reply.Ok? then Ok(Numbered(start, start + |requests[k].mutations|)) else reply)
    decreases |requests|
  {
    hide Shares, MutationsOf, Numbered, Take, Drop;
    if reply.Ok? {
      SharesAreOwn(requests, from, k);
    } else {
      FirstShare(requests, reply);
      if k > 0 {
        ShareOf(requests[1..], reply, from, k - 1);
      }
    }
  }

  /** Serving a queue is serving a round of it and then the rest, unless nothing waits. */
  lemma ServesOn(crc: Crc, interval: nat, w: Service, queue: seq<Slot>, i: nat, faults: nat -> RoundFault, round: nat)
    requires i <= |queue| && Room(w.m, Load(queue[i..]))
    ensures NextMessage(queue, i) == |queue| ==> Serve(crc, interval, w, queue, i, faults, round) == w
    ensures NextMessage(queue, i) < |queue| ==>
              var n := RoundEnd(queue, i);
              && Room(w.m, Load(queue[i..n]))
              && var next := Round(crc, interval, w, queue[i..n], faults(round));
                 && Room(next.m, Load(queue[n..]))
                 && w.answers <= next.answers <= Serve(crc, interval, w, queue, i, faults, round).answers
                 && Serve(crc, interval, w, queue, i, faults, round) ==
                    Serve(crc, interval, next, queue, n, faults, round + 1)
  {
    hide Round, Load, RoundEnd, NextMessage, Writes, Checkpoints, AnsweredRevisions, WroteIds, CheckpointIds, Numbered,
      Ids;
    if NextMessage(queue, i) < |queue| {
      var n := RoundEnd(queue, i);
      LoadSplits(queue, i, n);
      RoundTakesRoom(crc, interval, w, queue[i..n], faults(round), Load(queue[n..]));
      RoundAnswersLoaded(crc, interval, w, queue[i..n], faults(round));
      EveryCallerIsAnswered(crc, interval, Round(crc, interval, w, queue[i..n], faults(round)),
                            queue, n, faults, round + 1);
    }
  }

  /** What precedes an answer given after the first round, counted from that round. */
  lemma LaterAnswer(crc: Crc, interval: nat, w: Service, queue: seq<Slot>, i: nat, n: nat, fault: RoundFault,
                    answers: seq<Answer>, j: nat, p: nat)
    requires i <= n <= p <= |queue| && Room(w.m, Load(queue[i..n]))
    requires var next := Round(crc, interval, w, queue[i..n], fault);
             && w.answers <= next.answers <= answers && |next.answers| <= j <= |answers|
             && WroteIds(answers[|next.answers|..j]) == Ids(Writes(queue[n..p]))
    ensures var next := Round(crc, interval, w, queue[i..n], fault);
            && WroteIds(answers[|w.answers|..j]) == Ids(Writes(queue[i..p]))
            && w.m.store.current.main + |AnsweredRevisions(answers[|w.answers|..j])| ==
               next.m.store.current.main + |AnsweredRevisions(answers[|next.answers|..j])|
  {
    hide Round, Writes, Checkpoints, AnsweredRevisions, WroteIds, CheckpointIds, Load, Drop, Numbered, Ids;
    var slots, next := queue[i..n], Round(crc, interval, w, queue[i..n], fault);
    RoundAnswersLoaded(crc, interval, w, slots, fault);
    assert queue[i..p] == slots + queue[n..p];
    WritesConcat(slots, queue[n..p]);
    IdsConcat(Writes(slots), Writes(queue[n..p]));
    RepliesAfter(w.answers, next.answers, answers, j);
    AnsweredConcat(Drop(next.answers, |w.answers|), answers[|next.answers|..j]);
    LengthNumbered(w.m.store.current.main, next.m.store.current.main);
  }

  /**
   Each write is answered in its turn, and a successful one with exactly the revisions of
   its own mutations: as many as it has, numbered on from all those answered before it.
   */
  lemma {:induction false} EveryCallerGetsItsOwn(crc: Crc, interval: nat, w: Service, queue: seq<Slot>, i: nat,
                                                 faults: nat -> RoundFault, round: nat, j: nat) returns (p: nat)
    requires i <= |queue| && Room(w.m, Load(queue[i..]))
    requires |w.answers| <= j < |Serve(crc, interval, w, queue, i, faults, round).answers|
    requires Serve(crc, interval, w, queue, i, faults, round).answers[j].Wrote?
    ensures i <= p < |queue| && queue[p].Waiting? && queue[p].message.Write?
    ensures var answers, r := Serve(crc, interval, w, queue, i, faults, round).answers, queue[p].message.request;
            var from := w.m.store.current.main + |AnsweredRevisions(answers[|w.answers|..j])|;
            && answers[j].id == r.id
            && WroteIds(answers[|w.answers|..j]) == Ids(Writes(queue[i..p]))
            && (answers[j].outcome.Ok? ==> answers[j].outcome.value == Numbered(from, from + |r.mutations|))
    decreases |queue| - i
  {
    hide Round, Writes, Checkpoints, AnsweredRevisions, WroteIds, CheckpointIds, Load, Drop, RoundEnd, Numbered, Ids,
      Serve, Room, NextMessage, MutationsOf, RetireBatch;
    ServesOn(crc, interval, w, queue, i, faults, round);
    var end := Serve(crc, interval, w, queue, i, faults, round);
    var n := RoundEnd(queue, i);
    var slots, fault := queue[i..n], faults(round);
    var next := Round(crc, interval, w, slots, fault);
    if j < |next.answers| {
      assert end.answers[j] == next.answers[j] && end.answers[|w.answers|..j] == next.answers[|w.answers|..j];
      var k := RoundAnswersOwn(crc, interval, w, slots, fault, j);
      var q := NthWrite(slots, k);
      p := i + q;
      assert queue[i..p] == slots[..q];
    } else {
      p := EveryCallerGetsItsOwn(crc, interval, next, queue, n, faults, round + 1, j);
      LaterAnswer(crc, interval, w, queue, i, n, fault, end.answers, j, p);
    }
  }

  // ---- The writer only takes steps of the machine ------------------------------------------------------

  function StepAll(cfg: Config, n: Node, steps: seq<Step>): Node {
    if steps == [] then n else Next(cfg, StepAll(cfg, n, Front(steps)), Last(steps))
  }

  lemma {:induction false} StepsConcat(cfg: Config, n: Node, a: seq<Step>, b: seq<Step>)
    ensures StepAll(cfg, n, a + b) == StepAll(cfg, StepAll(cfg, n, a), b)
  {
    hide Next;
    if b == [] {
      assert a + b == a;
    } else {
      assert Front(a + b) == a + Front(b);
      StepsConcat(cfg, n, a, Front(b));
    }
  }

  function Removals(k: nat): (steps: seq<Step>)
    ensures |steps| == k && forall i :: 0 <= i < k ==> steps[i] == Remove
  {
    if k == 0 then [] else Removals(k - 1) + [Remove]
  }

  /** The machine's steps amounting to one compaction. */
  /** A round's batch leaves the position countable. */
  lemma RetiringRoom(crc: Crc, w: Service, requests: seq<Request>, fault: RetireFault)
    requires Room(w.m, |MutationsOf(requests)|)
    ensures RetireRound(crc, w, requests, fault).m.store.applied < U64_END
  {
    hide MutationsOf, EncodeAll, RetireBatch, NameTaken, Shares, AllEncodable;
    RetiringTakesRoom(crc, w.m, MutationsOf(requests), fault, 0);
  }

  function CompactSteps(m: Machine, fault: CompactFault): seq<Step>
    requires m.store.applied < U64_END
  {
    if fault.CheckpointFails? then [Step.Checkpoint(false, fault.visible)]
    else if fault.ListFails? then [Step.Checkpoint(true, true)]
    else
      var n := Redundant(m.Files(), m.store.applied);
      [Step.Checkpoint(true, true)] + Removals(if fault.RemoveFails? && fault.after < n then fault.after else n)
  }

  function WithoutFirst(n: Node, k: nat): Node
    requires n.phase.Running? && k <= |n.phase.m.sealed|
  {
    var m := n.phase.m;
    n.(phase := n.phase.(m := m.(sealed := m.sealed[k..], flushed := Drop(m.flushed, k))))
  }

  lemma OneRemoval(cfg: Config, n: Node, k: nat)
    requires n.phase.Running? && k < Redundant(n.phase.m.Files(), n.phase.durable)
    ensures k < |n.phase.m.sealed| && Next(cfg, WithoutFirst(n, k), Remove) == WithoutFirst(n, k + 1)
  {
    var m := n.phase.m;
    RedundantIsLongest(m.Files(), n.phase.durable);
    var before := WithoutFirst(n, k).phase.m;
    assert before.Files() == m.Files()[k..];
    assert before.sealed[1..] == m.sealed[k + 1..];
    assert Drop(before.flushed, 1) == Drop(m.flushed, k + 1);
  }

  lemma {:induction false} RemovesTake(cfg: Config, n: Node, k: nat)
    requires n.phase.Running? && k <= Redundant(n.phase.m.Files(), n.phase.durable)
    ensures k <= |n.phase.m.sealed| && StepAll(cfg, n, Removals(k)) == WithoutFirst(n, k)
  {
    hide Next, Redundant;
    if k == 0 {
      assert n.phase.m.sealed[0..] == n.phase.m.sealed && Drop(n.phase.m.flushed, 0) == n.phase.m.flushed;
    } else {
      RemovesTake(cfg, n, k - 1);
      OneRemoval(cfg, n, k - 1);
      Snoc(Removals(k - 1), Remove);
    }
  }

  lemma OneStep(cfg: Config, n: Node, step: Step)
    ensures StepAll(cfg, n, [step]) == Next(cfg, n, step)
  {
    assert Front([step]) == [];
  }

  /** A compaction is a checkpoint step and then removals, each a step a crash may come between. */
  lemma CompactionIsSteps(cfg: Config, n: Node, fault: CompactFault)
    requires n.phase.Running? && n.phase.m.store.applied < U64_END
    ensures var end := StepAll(cfg, n, CompactSteps(n.phase.m, fault));
            end.phase.Running? && end.phase.m == CompactLog(n.phase.m, fault).0
  {
    hide StepAll, Redundant;
    var m := n.phase.m;
    if fault.CheckpointFails? {
      OneStep(cfg, n, Step.Checkpoint(false, fault.visible));
    } else {
      var checkpoint := Step.Checkpoint(true, true);
      var next := Next(cfg, n, checkpoint);
      OneStep(cfg, n, checkpoint);
      if !fault.ListFails? {
        var count := Redundant(m.Files(), m.store.applied);
        var removed := if fault.RemoveFails? && fault.after < count then fault.after else count;
        StepsConcat(cfg, n, [checkpoint], Removals(removed));
        assert next.phase.m.Files() == m.Files();
        RemovesTake(cfg, next, removed);
      }
    }
  }

  /** Empty writes never reach the queue. */
  ghost predicate NoEmptyWrites(slots: seq<Slot>) {
    forall k :: 0 <= k < |slots| && slots[k].Waiting? && slots[k].message.Write? ==>
      slots[k].message.request.mutations != []
  }

  lemma {:induction false} SomethingToRetire(slots: seq<Slot>)
    requires NoEmptyWrites(slots)
    ensures Writes(slots) != [] ==> MutationsOf(Writes(slots)) != []
  {
    hide MutationsOf;
    if slots != [] {
      SomethingToRetire(Front(slots));
      var last := WriteOf(Last(slots));
      if last != [] {
        assert slots[|slots| - 1] == Last(slots);
        assert last == [last[0]];
        MutationsSnoc(Writes(Front(slots)), last[0]);
      } else {
        assert Writes(Front(slots)) + [] == Writes(Front(slots));
      }
    }
  }

  /** The machine's steps amounting to one round. */
  function RoundSteps(crc: Crc, interval: nat, w: Service, slots: seq<Slot>, fault: RoundFault): seq<Step>
    requires Room(w.m, Load(slots))
  {
    RetiringTakesRoom(crc, w.m, MutationsOf(Writes(slots)), fault.retire, 0);
    var retired := RetireRound(crc, w, Writes(slots), fault.retire);
    (if Writes(slots) == [] then [] else [Step.Retire(MutationsOf(Writes(slots)), fault.retire)]) +
    (if Checkpoints(slots) == [] && retired.appended < interval then [] else CompactSteps(retired.m, fault.compact))
  }

  lemma RetireIsStep(cfg: Config, n: Node, batch: seq<Mutation>, fault: RetireFault)
    requires n.phase.Running? && Room(n.phase.m, |batch|) && batch != []
    ensures var next := StepAll(cfg, n, [Step.Retire(batch, fault)]);
            next.phase.Running? && next.phase.m == RetireBatch(cfg.crc, n.phase.m, batch, fault).0
  {
    hide RetireBatch, Drifts;
    OneStep(cfg, n, Step.Retire(batch, fault));
    assert HasRoom(n.phase.m, batch);
  }

  lemma RoundIsSteps(cfg: Config, interval: nat, n: Node, w: Service, slots: seq<Slot>, fault: RoundFault)
    requires n.phase.Running? && n.phase.m == w.m && Room(w.m, Load(slots)) && NoEmptyWrites(slots)
    ensures var end := StepAll(cfg, n, RoundSteps(cfg.crc, interval, w, slots, fault));
            end.phase.Running? && end.phase.m == Round(cfg.crc, interval, w, slots, fault).m
  {
    hide RetireBatch, RetireReply, EncodeAll, AllEncodable, Shares, CompactLog, CompactSteps, MutationsOf, Writes,
      Checkpoints, Next, Replaced;
    RetiringTakesRoom(cfg.crc, w.m, MutationsOf(Writes(slots)), fault.retire, 0);
    SomethingToRetire(slots);
    var retired := RetireRound(cfg.crc, w, Writes(slots), fault.retire);
    var first := if Writes(slots) == [] then [] else [Step.Retire(MutationsOf(Writes(slots)), fault.retire)];
    var mid := StepAll(cfg, n, first);
    if Writes(slots) != [] {
      RetireIsStep(cfg, n, MutationsOf(Writes(slots)), fault.retire);
    }
    var compacts := !(Checkpoints(slots) == [] && retired.appended < interval);
    var second := if compacts then CompactSteps(retired.m, fault.compact) else [];
    StepsConcat(cfg, n, first, second);
    if compacts {
      CompactionIsSteps(cfg, mid, fault.compact);
    }
    assert RoundSteps(cfg.crc, interval, w, slots, fault) == first + second;
  }

  /** The machine's steps amounting to serving a queue. */
  function ServeSteps(crc: Crc, interval: nat, w: Service, queue: seq<Slot>, i: nat,
                      faults: nat -> RoundFault, round: nat): seq<Step>
    requires i <= |queue| && Room(w.m, Load(queue[i..]))
    decreases |queue| - i
  {
    if NextMessage(queue, i) == |queue| then []
    else
      var n := RoundEnd(queue, i);
      LoadSplits(queue, i, n);
      RoundTakesRoom(crc, interval, w, queue[i..n], faults(round), Load(queue[n..]));
      RoundSteps(crc, interval, w, queue[i..n], faults(round)) +
      ServeSteps(crc, interval, Round(crc, interval, w, queue[i..n], faults(round)), queue, n, faults, round + 1)
  }

  /**
   Serving a queue is a run of the machine: whatever is proved of its runs, crashes and
   recoveries between any two steps included, holds of the writer.
   */
  lemma {:induction false} ServingIsSteps(cfg: Config, interval: nat, n: Node, w: Service, queue: seq<Slot>, i: nat,
                                          faults: nat -> RoundFault, round: nat)
    requires i <= |queue| && Room(w.m, Load(queue[i..])) && NoEmptyWrites(queue)
    requires n.phase.Running? && n.phase.m == w.m
    ensures var end := StepAll(cfg, n, ServeSteps(cfg.crc, interval, w, queue, i, faults, round));
            end.phase.Running? && end.phase.m == Serve(cfg.crc, interval, w, queue, i, faults, round).m
    decreases |queue| - i
  {
    hide Round, RoundSteps, Load, RoundEnd, Next;
    if NextMessage(queue, i) < |queue| {
      var j := RoundEnd(queue, i);
      var slots, fault := queue[i..j], faults(round);
      LoadSplits(queue, i, j);
      RoundTakesRoom(cfg.crc, interval, w, slots, fault, Load(queue[j..]));
      RoundIsSteps(cfg, interval, n, w, slots, fault);
      var first := RoundSteps(cfg.crc, interval, w, slots, fault);
      var next := Round(cfg.crc, interval, w, slots, fault);
      ServingIsSteps(cfg, interval, StepAll(cfg, n, first), next, queue, j, faults, round + 1);
      StepsConcat(cfg, n, first, ServeSteps(cfg.crc, interval, next, queue, j, faults, round + 1));
    }
  }

  // ---- Why a batch was refused -----------------------------------------------------------------

  /**
   A batch is refused as corrupt if some mutation is too long to record; as an I/O failure if
   its roll-over, write or flush failed; and as not applied if it was appended and the store
   refused it.
   */
  lemma RefusedBecause(crc: Crc, m: Machine, batch: seq<Mutation>, fault: RetireFault)
    ensures var reply := RetireReply(crc, m, batch, fault).0;
            var full := m.active.limit <= m.active.written;
            var tooLong := exists i :: 0 <= i < |batch| &&
                             (|batch[i].key| >= 0x1_0000_0000 || 6 + |batch[i].key| + |batch[i].Payload()| > 67108864);
            var stuck := full && (fault.RollFails? || exists f :: f in m.Files() && f.first == m.store.applied);
            var unwritten := (!full && m.active.poisoned) || (fault.AppendFault? && !fault.append.NoFault?);
            && (reply == Err(CorruptRecord) <==> tooLong)
            && (reply == Err(Io) <==> !tooLong && (stuck || unwritten))
            && (reply == Err(ApplyRefused) <==> !tooLong && !stuck && !unwritten && fault.ApplyFails?)
  {
    hide EventsAfter, RevisionsOf;
    assert AllEncodable(batch) <==> forall i :: 0 <= i < |batch| ==> Encodable(batch[i]);
  }

  /** A failed batch's callers are all told the same. */
  lemma {:induction false} FailureIsShared(requests: seq<Request>, e: WalError, k: nat)
    requires k < |requests|
    ensures Shares(requests, Err(e))[k] == Wrote(requests[k].id, Err(e))
    decreases |requests|
  {
    hide Shares;
    FirstShare(requests, Err(e));
    if k > 0 {
      FailureIsShared(requests[1..], e, k - 1);
    }
  }
}
