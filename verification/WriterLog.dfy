/** The revisions callers are answered, and the log a reader finds at them later. */
module WriterLog {
  import opened Wrappers
  import opened Sequences
  import opened Revisions
  import opened Mutations
  import opened ByteStrings
  import opened Frames
  import opened Stores
  import opened LogStores
  import opened LogMachine
  import opened LogRuns
  import opened WriterRounds
  import opened WriterGuarantees
  import LogGuarantees
  import opened LogAftermath

  lemma {:induction false} ExecConcat(cfg: Config, steps: seq<Step>, more: seq<Step>)
    ensures Exec(cfg, steps + more) == StepAll(cfg, Exec(cfg, steps), more)
  {
    hide Next;
    if more == [] {
      assert steps + more == steps;
    } else {
      assert Front(steps + more) == steps + Front(more);
      ExecConcat(cfg, steps, Front(more));
    }
  }

  /** A caller's mutations within its batch. */
  lemma {:induction false} OwnSlice(requests: seq<Request>, k: nat)
    requires k < |requests|
    ensures var start := |MutationsOf(requests[..k])|;
            && start + |requests[k].mutations| <= |MutationsOf(requests)|
            && MutationsOf(requests)[start..start + |requests[k].mutations|] == requests[k].mutations
  {
    hide MutationsOf;
    assert requests == requests[..k] + ([requests[k]] + requests[k + 1..]);
    MutationsConcat(requests[..k], [requests[k]] + requests[k + 1..]);
    MutationsConcat([requests[k]], requests[k + 1..]);
    MutationsSnoc([], requests[k]);
    WriterRounds.NoMutations();
    assert [] + [requests[k]] == [requests[k]] && [] + requests[k].mutations == requests[k].mutations;
  }

  /** The log of a run at its callers' revisions, if it begins as it was when they were answered. */
  ghost predicate LogHasAt(log: seq<Mutation>, from: nat, mine: seq<Mutation>) {
    from + |mine| <= |log| && log[from..from + |mine|] == mine
  }

  lemma HasInLonger(log: seq<Mutation>, longer: seq<Mutation>, from: nat, mine: seq<Mutation>)
    requires log <= longer && LogHasAt(log, from, mine)
    ensures LogHasAt(longer, from, mine)
  {
    assert longer[from..from + |mine|] == log[from..from + |mine|];
  }

  /** One acknowledged round puts each caller's mutations at the revisions it is answered. */
  lemma RoundLogged(cfg: Config, n: Node, requests: seq<Request>, fault: RetireFault, k: nat)
    requires n.phase.Running? && k < |requests| && MutationsOf(requests) != []
    requires HasRoom(n.phase.m, MutationsOf(requests))
    requires RetireBatch(cfg.crc, n.phase.m, MutationsOf(requests), fault).1
    ensures LogHasAt(Flatten(Next(cfg, n, Step.Retire(MutationsOf(requests), fault)).trace),
                     |Flatten(n.trace)| + |MutationsOf(requests[..k])|, requests[k].mutations)
  {
    hide Flatten, RetireBatch, MutationsOf, Drifts;
    var batch := MutationsOf(requests);
    var step := Step.Retire(batch, fault);
    LogGuarantees.LogGrowsByBatch(cfg, n, batch, fault);
    OwnSlice(requests, k);
    var log, start := Flatten(n.trace), |MutationsOf(requests[..k])|;
    assert (log + batch)[|log| + start..|log| + start + |requests[k].mutations|] ==
      batch[start..start + |requests[k].mutations|];
  }

  lemma KeptAtRevision(n: Node)
    requires StoreKeeps(n)
    ensures n.phase.Running? && n.phase.m.store.current.main == |Flatten(n.trace)|
  {
    hide Flatten, Holds, AllRestorable;
    HoldsPosition(n.phase.m.store, Flatten(n.trace));
  }

  // ---- A log that stays up only grows --------------------------------------------------------------

  lemma StepGrows(cfg: Config, n: Node, step: Step)
    requires n.phase.Running? && StaysUp(step)
    ensures Flatten(n.trace) <= Flatten(Next(cfg, n, step).trace)
  {
    hide Flatten, RetireStep;
    match step
    case Retire(batch, fault) => RetiredStore(cfg, n, batch, fault);
    case Checkpoint(_, _) =>
    case Remove =>
  }

  lemma {:induction false} StayingUpGrows(cfg: Config, steps: seq<Step>, more: seq<Step>)
    requires StoreKeeps(Exec(cfg, steps)) && forall i :: 0 <= i < |more| ==> StaysUp(more[i])
    ensures StoreKeeps(Exec(cfg, steps + more))
    ensures Flatten(Exec(cfg, steps).trace) <= Flatten(Exec(cfg, steps + more).trace)
  {
    hide StoreKeeps, Exec, Next, StaysUp, Flatten;
    if more == [] {
      assert steps + more == steps;
    } else {
      StayingUpGrows(cfg, steps, Front(more));
      assert steps + more == steps + Front(more) + [Last(more)];
      LogGuarantees.OneMoreStep(cfg, steps + Front(more), Last(more));
      KeptAtRevision(Exec(cfg, steps + Front(more)));
      StepKeepsStore(cfg, Exec(cfg, steps + Front(more)), Last(more));
      StepGrows(cfg, Exec(cfg, steps + Front(more)), Last(more));
    }
  }

  lemma RoundStaysUp(crc: Crc, interval: nat, w: Service, slots: seq<Slot>, fault: RoundFault)
    requires Room(w.m, Load(slots))
    ensures forall i :: 0 <= i < |RoundSteps(crc, interval, w, slots, fault)| ==>
              StaysUp(RoundSteps(crc, interval, w, slots, fault)[i])
  {
    hide RetireBatch, RetireReply, MutationsOf, Writes, Checkpoints, RetireRound, CompactSteps;
    RetiringTakesRoom(crc, w.m, MutationsOf(Writes(slots)), fault.retire, 0);
    var retired := RetireRound(crc, w, Writes(slots), fault.retire);
    RetiringRoom(crc, w, Writes(slots), fault.retire);
    CompactionStaysUp(retired.m, fault.compact);
  }

  lemma CompactionStaysUp(m: Machine, fault: CompactFault)
    requires m.store.applied < U64_END
    ensures forall i :: 0 <= i < |CompactSteps(m, fault)| ==> StaysUp(CompactSteps(m, fault)[i])
  {
  }

  lemma {:induction false} ServingStaysUp(crc: Crc, interval: nat, w: Service, queue: seq<Slot>, i: nat,
                                          faults: nat -> RoundFault, round: nat)
    requires i <= |queue| && Room(w.m, Load(queue[i..]))
    ensures var steps := ServeSteps(crc, interval, w, queue, i, faults, round);
            forall k :: 0 <= k < |steps| ==> StaysUp(steps[k])
    decreases |queue| - i
  {
    hide Round, Load, RoundEnd, RoundSteps, NextMessage, Serve, ServeSteps, StaysUp;
    ServingGoesOn(crc, interval, w, queue, i, faults, round);
    if NextMessage(queue, i) < |queue| {
      var n := RoundEnd(queue, i);
      RoundStaysUp(crc, interval, w, queue[i..n], faults(round));
      ServingStaysUp(crc, interval, Round(crc, interval, w, queue[i..n], faults(round)), queue, n, faults, round + 1);
    } else {
      NothingServed(crc, interval, w, queue, i, faults, round);
    }
  }

  lemma NothingServed(crc: Crc, interval: nat, w: Service, queue: seq<Slot>, i: nat, faults: nat -> RoundFault,
                      round: nat)
    requires i <= |queue| && Room(w.m, Load(queue[i..])) && NextMessage(queue, i) == |queue|
    ensures ServeSteps(crc, interval, w, queue, i, faults, round) == []
  {
  }

  /** What a round's first step is, when it has writes. */
  lemma RoundBegins(crc: Crc, interval: nat, w: Service, slots: seq<Slot>, fault: RoundFault)
    requires Room(w.m, Load(slots)) && Writes(slots) != []
    ensures var steps := RoundSteps(crc, interval, w, slots, fault);
            steps != [] && steps == [Step.Retire(MutationsOf(Writes(slots)), fault.retire)] + steps[1..]
  {
    hide RetireBatch, RetireReply, MutationsOf, Writes, Checkpoints, CompactSteps, RetireRound;
  }

  /**
   Serving a queue, whatever fails: at the revisions a write was answered, the log has that
   caller's mutations.
   */
  lemma {:induction false} ServedIsLogged(cfg: Config, interval: nat, steps: seq<Step>, w: Service, queue: seq<Slot>,
                                          i: nat, faults: nat -> RoundFault, round: nat, j: nat) returns (p: nat)
    requires i <= |queue| && Room(w.m, Load(queue[i..])) && NoEmptyWrites(queue)
    requires StoreKeeps(Exec(cfg, steps)) && Exec(cfg, steps).phase.m == w.m
    requires |w.answers| <= j < |Serve(cfg.crc, interval, w, queue, i, faults, round).answers|
    requires var a := Serve(cfg.crc, interval, w, queue, i, faults, round).answers[j]; a.Wrote? && a.outcome.Ok?
    ensures i <= p < |queue| && queue[p].Waiting? && queue[p].message.Write?
    ensures var answers, r := Serve(cfg.crc, interval, w, queue, i, faults, round).answers, queue[p].message.request;
            var from := w.m.store.current.main + |AnsweredRevisions(answers[|w.answers|..j])|;
            var log := Flatten(Exec(cfg, steps + ServeSteps(cfg.crc, interval, w, queue, i, faults, round)).trace);
            && answers[j].id == r.id
            && WroteIds(answers[|w.answers|..j]) == Ids(Writes(queue[i..p]))
            && answers[j].outcome.value == Numbered(from, from + |r.mutations|)
            && LogHasAt(log, from, r.mutations)
    decreases |queue| - i
  {
    hide Round, Writes, Checkpoints, AnsweredRevisions, WroteIds, CheckpointIds, Load, Drop, RoundEnd, Numbered, Ids,
      Exec, Flatten, RoundSteps, Next, LogHasAt, MutationsOf, Serve, ServeSteps, NextMessage, RetireBatch, Room,
      StoreKeeps, StaysUp;
    KeptAtRevision(Exec(cfg, steps));
    ServingGoesOn(cfg.crc, interval, w, queue, i, faults, round);
    var n := RoundEnd(queue, i);
    var slots, fault := queue[i..n], faults(round);
    var next := Round(cfg.crc, interval, w, slots, fault);
    var now := RoundSteps(cfg.crc, interval, w, slots, fault);
    var later := ServeSteps(cfg.crc, interval, next, queue, n, faults, round + 1);
    Associate(steps, now, later);
    var answers := Serve(cfg.crc, interval, w, queue, i, faults, round).answers;
    if j < |next.answers| {
      assert answers[j] == next.answers[j] && answers[|w.answers|..j] == next.answers[|w.answers|..j];
      var k := RoundAnswersOwn(cfg.crc, interval, w, slots, fault, j);
      var q := NthWrite(slots, k);
      p := i + q;
      assert queue[i..p] == slots[..q];
      ServingStaysUp(cfg.crc, interval, next, queue, n, faults, round + 1);
      FirstRoundLogged(cfg, interval, steps, w, slots, fault, later, k);
    } else {
      RoundStaysUp(cfg.crc, interval, w, slots, fault);
      StayingUpGrows(cfg, steps, now);
      ExecConcat(cfg, steps, now);
      RoundIsSteps(cfg, interval, Exec(cfg, steps), w, slots, fault);
      p := ServedIsLogged(cfg, interval, steps + now, next, queue, n, faults, round + 1, j);
      LaterAnswer(cfg.crc, interval, w, queue, i, n, fault, answers, j, p);
    }
  }

  /** Serving a queue is one round and then serving the rest. */
  lemma ServingGoesOn(crc: Crc, interval: nat, w: Service, queue: seq<Slot>, i: nat,
                      faults: nat -> RoundFault, round: nat)
    requires i <= |queue| && Room(w.m, Load(queue[i..]))
    ensures NextMessage(queue, i) == |queue| ==> Serve(crc, interval, w, queue, i, faults, round) == w
    ensures NextMessage(queue, i) < |queue| ==>
              var n := RoundEnd(queue, i);
              && Room(w.m, Load(queue[i..n]))
              && var next := Round(crc, interval, w, queue[i..n], faults(round));
                 && Room(next.m, Load(queue[n..]))
                 && w.answers <= next.answers <= Serve(crc, interval, w, queue, i, faults, round).answers
                 && Serve(crc, interval, w, queue, i, faults, round) ==
                    Serve(crc, interval, next, queue, n, faults, round + 1)
                 && ServeSteps(crc, interval, w, queue, i, faults, round) ==
                    RoundSteps(crc, interval, w, queue[i..n], faults(round)) +
                    ServeSteps(crc, interval, next, queue, n, faults, round + 1)
  {
    hide Round, Load, RoundEnd, RoundSteps, NextMessage, Serve;
    ServesOn(crc, interval, w, queue, i, faults, round);
  }

  lemma FirstRoundLogged(cfg: Config, interval: nat, steps: seq<Step>, w: Service, slots: seq<Slot>, fault: RoundFault,
                         later: seq<Step>, k: nat)
    requires Room(w.m, Load(slots)) && k < |Writes(slots)| && NoEmptyWrites(slots)
    requires StoreKeeps(Exec(cfg, steps)) && Exec(cfg, steps).phase.m == w.m
    requires forall i :: 0 <= i < |later| ==> StaysUp(later[i])
    requires Room(w.m, |MutationsOf(Writes(slots))|)
    requires RetireBatch(cfg.crc, w.m, MutationsOf(Writes(slots)), fault.retire).1
    ensures var all := (steps + RoundSteps(cfg.crc, interval, w, slots, fault)) + later;
            LogHasAt(Flatten(Exec(cfg, all).trace),
                     w.m.store.current.main + |MutationsOf(Writes(slots)[..k])|, Writes(slots)[k].mutations)
  {
    hide Writes, MutationsOf, Exec, Flatten, RoundSteps, Next, LogHasAt, RetireBatch, Load, StoreKeeps, StaysUp;
    KeptAtRevision(Exec(cfg, steps));
    RoundStaysUp(cfg.crc, interval, w, slots, fault);
    var requests, now := Writes(slots), RoundSteps(cfg.crc, interval, w, slots, fault);
    var retire := Step.Retire(MutationsOf(requests), fault.retire);
    SomethingToRetire(slots);
    RoundBegins(cfg.crc, interval, w, slots, fault);
    var rest := now[1..] + later;
    var all := (steps + now) + later;
    assert all == (steps + [retire]) + rest;
    assert StaysUp(now[0]) && now[0] == retire;
    StayingUpGrows(cfg, steps, [retire]);
    StayingUpGrows(cfg, steps + [retire], rest);
    LogGuarantees.OneMoreStep(cfg, steps, retire);
    RoundLogged(cfg, Exec(cfg, steps), requests, fault.retire, k);
    HasInLonger(Flatten(Exec(cfg, steps + [retire]).trace), Flatten(Exec(cfg, all).trace),
                w.m.store.current.main + |MutationsOf(requests[..k])|, requests[k].mutations);
  }

  /**
   What a client was told is what it reads, at any later point: after a prudent run, a queue
   served, whatever failed meanwhile, and then any steps while the log stays up, or, if all
   was prudent, any prudent steps, failures and restarts included, the events of the log at
   each answered caller's revisions are that caller's mutations.
   */
  lemma AnsweredIsRead(cfg: Config, interval: nat, steps: seq<Step>, w: Service, queue: seq<Slot>,
                       faults: nat -> RoundFault, more: seq<Step>, j: nat) returns (p: nat)
    requires Room(w.m, Load(queue[0..])) && NoEmptyWrites(queue)
    requires Prudent(cfg, steps) && Volume(steps) <= I64_MAX
    requires Exec(cfg, steps).phase.Running? && Exec(cfg, steps).phase.m == w.m
    requires var all := (steps + ServeSteps(cfg.crc, interval, w, queue, 0, faults, 0)) + more;
             (Prudent(cfg, all) && Volume(all) <= I64_MAX) || forall i :: 0 <= i < |more| ==> StaysUp(more[i])
    requires |w.answers| <= j < |Serve(cfg.crc, interval, w, queue, 0, faults, 0).answers|
    requires var a := Serve(cfg.crc, interval, w, queue, 0, faults, 0).answers[j]; a.Wrote? && a.outcome.Ok?
    ensures p < |queue| && queue[p].Waiting? && queue[p].message.Write?
    ensures var a, r := Serve(cfg.crc, interval, w, queue, 0, faults, 0).answers[j], queue[p].message.request;
            var served := steps + ServeSteps(cfg.crc, interval, w, queue, 0, faults, 0);
            var events := EventsAfter(ZERO, Flatten(Exec(cfg, served + more).trace));
            && a.id == r.id && |a.outcome.value| == |r.mutations|
            && forall k :: 0 <= k < |r.mutations| ==> ReadsAt(events, a.outcome.value[k], r.mutations[k])
  {
    hide Serve, ServeSteps, Exec, Prudent, Volume, Flatten, AnsweredRevisions, WroteIds, Writes, Ids, Load, StoreKeeps,
      StaysUp;
    var serving := ServeSteps(cfg.crc, interval, w, queue, 0, faults, 0);
    var served := steps + serving;
    StaysRight(cfg, steps, []);
    assert steps + [] == steps;
    p := ServedIsLogged(cfg, interval, steps, w, queue, 0, faults, 0, j);
    ServingStaysUp(cfg.crc, interval, w, queue, 0, faults, 0);
    StayingUpGrows(cfg, steps, serving);
    if forall i :: 0 <= i < |more| ==> StaysUp(more[i]) {
      StayingUpGrows(cfg, served, more);
    } else {
      LogOnlyGrows(cfg, served, more);
    }
    var a, r := Serve(cfg.crc, interval, w, queue, 0, faults, 0).answers[j], queue[p].message.request;
    var answers := Serve(cfg.crc, interval, w, queue, 0, faults, 0).answers;
    var from := w.m.store.current.main + |AnsweredRevisions(answers[|w.answers|..j])|;
    var log := Flatten(Exec(cfg, served + more).trace);
    HasInLonger(Flatten(Exec(cfg, served).trace), log, from, r.mutations);
    forall k | 0 <= k < |r.mutations| ensures ReadsAt(EventsAfter(ZERO, log), a.outcome.value[k], r.mutations[k]) {
      assert log[from..from + |r.mutations|][k] == log[from + k];
      assert EventsAfter(ZERO, log)[from + k] == Event(a.outcome.value[k], r.mutations[k]);
    }
  }

  /** The event at a revision is a mutation. */
  ghost predicate ReadsAt(events: seq<Event>, r: Revision, m: Mutation) {
    0 < r.main <= |events| && events[r.main - 1] == Event(r, m)
  }
}
