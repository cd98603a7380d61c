/** What the machine's invariant means to callers, to readers, and to whoever looks at the files. */
module LogGuarantees {
  import opened Wrappers
  import opened Sequences
  import opened ByteStrings
  import opened Revisions
  import opened Mutations
  import opened OrderedScan
  import opened Frames
  import opened LogRecords
  import opened Segments
  import opened Recovery
  import opened Stores
  import opened StoreInvariant
  import opened StoreReads
  import opened LogStores
  import opened LogMachine
  import opened LogShapes
  import opened LogRuns

  // ---- The shape of the log ------------------------------------------------------------------

  /** A sealed segment ends on a complete record, and the next one starts right after it. */
  ghost predicate EndsWhereNextStarts(crc: Crc, f: File, next: File) {
    var p := Parse(crc, f.data);
    p.end.Clean? && p.records != [] && f.first + |p.records| == next.first
  }

  lemma SealedEndsCleanly(crc: Crc, files: seq<File>, log: seq<Mutation>, tail: bytes, i: nat)
    requires HoldsLog(crc, files, log, tail) && i + 1 < |files|
    ensures EndsWhereNextStarts(crc, files[i], files[i + 1])
  {
    assert Sealed(crc, files, log, i);
    WholeLogParses(crc, log[files[i].first..files[i + 1].first]);
  }

  /** The active segment reads back as the end of the log, then the caught batch's complete records. */
  lemma ActiveEnds(cfg: Config, m: Machine, log: seq<Mutation>, tail: bytes, more: seq<Mutation>, drifted: bool)
    requires LogHeld(cfg, m, log, tail, drifted) && AllEncodable(more) && tail <= EncodeAll(cfg.crc, more)
    ensures var p := Parse(cfg.crc, m.active.data);
            && !p.end.Damaged?
            && |log| <= m.first + |p.records| <= |log| + |more|
            && (tail == [] ==> p.end.Clean? && m.first + |p.records| == |log|)
  {
    hide EncodeAll, Parse, Whole, HoldsLog;
    ActiveHolds(cfg.crc, m.sealed, m.first, m.active.data, log, tail);
    LastSegmentParses(cfg.crc, log, more, tail, m.first);
    if tail == [] {
      NoBytes(EncodeAll(cfg.crc, log[m.first..]));
      WholeLogParses(cfg.crc, log[m.first..]);
    }
  }

  /**
   At every reachable state segments are contiguous, sealed ones are whole, a poisoned one
   is not full, or its successor would have its own name, so it is never sealed, and unless
   a batch is caught past it the log ends exactly at the store's position.
   */
  lemma LogShape(cfg: Config, steps: seq<Step>)
    requires Volume(steps) <= I64_MAX && Prudent(cfg, steps)
    requires Exec(cfg, steps).phase.Running?
    ensures var n := Exec(cfg, steps);
            var m := n.phase.m;
            var p := Parse(cfg.crc, m.active.data);
            && (forall i :: 0 <= i < |m.Files()| - 1 ==> EndsWhereNextStarts(cfg.crc, m.Files()[i], m.Files()[i + 1]))
            && (m.active.poisoned ==> m.active.written < m.active.limit || m.first == m.store.applied)
            && !p.end.Damaged? && m.store.applied <= m.first + |p.records|
            && (n.caught.None? ==> p.end.Clean? && m.first + |p.records| == m.store.applied)
            && (!m.active.poisoned && !n.phase.drifted ==> n.caught.None?)
  {
    hide Parse, EncodeAll, HoldsLog, Holds, AllRestorable, Flatten, Exec, Prudent, Volume, Quiet;
    RunKeeps(cfg, steps);
    var n := Exec(cfg, steps);
    var tail :| RunningHolds(cfg, n, tail);
    var m, log := n.phase.m, Flatten(n.trace);
    QuietIsThere(cfg.crc, n.trace, n.caught, tail);
    var more := if n.caught.None? then [] else n.trace[n.caught.value].batch;
    HoldsPosition(m.store, log);
    ActiveEnds(cfg, m, log, tail, more, n.phase.drifted);
    ActiveHolds(cfg.crc, m.sealed, m.first, m.active.data, log, tail);
    forall i | 0 <= i < |m.Files()| - 1 ensures EndsWhereNextStarts(cfg.crc, m.Files()[i], m.Files()[i + 1]) {
      SealedEndsCleanly(cfg.crc, m.Files(), log, tail, i);
    }
  }

  lemma QuietIsThere(crc: Crc, trace: seq<Entry>, caught: Option<nat>, tail: bytes)
    requires CaughtTail(crc, trace, caught, tail)
    ensures caught.Some? ==> caught.value < |trace|
  {
  }

  // ---- What callers and readers see -----------------------------------------------------------

  /**
   Reads of a running log's store are reads of the replayed log, batch boundaries,
   restarts and failures having left no mark.
   */
  lemma ReadsSeeTheLog(cfg: Config, steps: seq<Step>, range: Range, at: Option<nat>, limit: Option<nat>)
    requires Volume(steps) <= I64_MAX && Prudent(cfg, steps)
    requires Exec(cfg, steps).phase.Running? && !range.Panics()
    ensures var n := Exec(cfg, steps);
            && Represents(n.phase.m.store, EventsAfter(ZERO, Flatten(n.trace)))
            && ReadsTheLog(n.phase.m.store, Flatten(n.trace), range, at, limit)
  {
    hide Flatten, Exec, Prudent, Volume, ReadsTheLog, Holds, Represents;
    var n := Exec(cfg, steps);
    CrashSafety(cfg, steps);
    RunKeeps(cfg, steps);
    HoldsRepresents(n.phase.m.store, Flatten(n.trace));
    HoldsReads(n.phase.m.store, Flatten(n.trace), range, at, limit);
  }

  /**
   A read that names no revision sees the whole log, one that names a revision of it the log
   up to there, and one past its end is refused.
   */
  ghost predicate ReadsTheLog(s: Store, log: seq<Mutation>, range: Range, at: Option<nat>, limit: Option<nat>) {
    var n := if at.Some? then at.value else |log|;
    if n <= |log| then AnswersAsReplay(RangeOf(s, range, at, limit), EventsAfter(ZERO, log), range, n, limit)
    else RangeOf(s, range, at, limit) == Err(FutureRevision(n, |log|))
  }

  lemma HoldsReads(s: Store, log: seq<Mutation>, range: Range, at: Option<nat>, limit: Option<nat>)
    requires Holds(s, log) && AllEncodable(log) && !range.Panics()
    ensures ReadsTheLog(s, log, range, at, limit)
  {
    hide Holds, Readable, Represents, RangeOf, AnswersAsReplay;
    HoldsPosition(s, log);
    HoldsRepresents(s, log);
    ReadIsReplayedKeyspace(s, EventsAfter(ZERO, log), 0, range, at, limit);
  }

  lemma HoldsRepresents(s: Store, log: seq<Mutation>)
    requires Holds(s, log) && AllEncodable(log)
    ensures Represents(s, EventsAfter(ZERO, log)) && s.compacted == 0
    ensures Readable(s, EventsAfter(ZERO, log), 0)
  {
    hide ApplyTo;
    EncodableIsStorable(log);
    StoreOfRepresents(log);
    if s != StoreOf(log) {
      CheckpointKeepsInvariant(EMPTY, []);
      EmptyRepresents();
      assert EventsAfter(ZERO, log) == [];
    }
  }

  /**
   The revisions an acknowledged caller was answered stay its own: however the run goes
   on, the log's events at those revisions are the caller's mutations.
   */
  lemma AnsweredRevisionsStand(cfg: Config, steps: seq<Step>, batch: seq<Mutation>, fault: RetireFault, more: seq<Step>)
    requires var all := steps + [Retire(batch, fault)] + more; Volume(all) <= I64_MAX && Prudent(cfg, all)
    requires var n := Exec(cfg, steps + [Retire(batch, fault)]); n.trace != [] && Last(n.trace).acked
    requires Exec(cfg, steps).phase.Running?
    requires |Exec(cfg, steps + [Retire(batch, fault)]).trace| > |Exec(cfg, steps).trace|
    ensures var s := Exec(cfg, steps).phase.m.store;
            var end := Exec(cfg, steps + [Retire(batch, fault)] + more);
            var events := EventsAfter(ZERO, Flatten(end.trace));
            var answered := EventsAfter(s.current, batch);
            s.current.main + |batch| <= |events| && events[s.current.main..s.current.main + |batch|] == answered
  {
    hide Flatten, Next, Prudent, Volume, Invariant, Holds, EventsAfter, Exec;
    var upto := steps + [Retire(batch, fault)];
    LongerRuns(cfg, upto, more);
    LongerRuns(cfg, steps, [Retire(batch, fault)]);
    LogOnlyGrows(cfg, upto, more);
    CrashSafety(cfg, steps);
    OneMoreStep(cfg, steps, Retire(batch, fault));
    var before := Exec(cfg, steps);
    HoldsPosition(before.phase.m.store, Flatten(before.trace));
    LogGrowsByBatch(cfg, before, batch, fault);
    EventsStand(Flatten(before.trace), batch, Flatten(Exec(cfg, upto + more).trace), before.phase.m.store.current);
  }

  lemma OneMoreStep(cfg: Config, steps: seq<Step>, step: Step)
    ensures Exec(cfg, steps + [step]) == Next(cfg, Exec(cfg, steps), step)
  {
    Snoc(steps, step);
  }

  lemma EventsStand(log: seq<Mutation>, batch: seq<Mutation>, end: seq<Mutation>, current: Revision)
    requires log + batch <= end && current.main == |log|
    ensures current.main + |batch| <= |EventsAfter(ZERO, end)|
    ensures EventsAfter(ZERO, end)[current.main..current.main + |batch|] == EventsAfter(current, batch)
  {
    forall i | 0 <= i < |batch| ensures end[|log| + i] == batch[i] {
      assert (log + batch)[|log| + i] == batch[i];
    }
  }

  lemma LogGrowsByBatch(cfg: Config, n: Node, batch: seq<Mutation>, fault: RetireFault)
    requires n.phase.Running?
    requires var next := Next(cfg, n, Retire(batch, fault)); |next.trace| > |n.trace| && Last(next.trace).acked
    ensures Flatten(Next(cfg, n, Retire(batch, fault)).trace) == Flatten(n.trace) + batch
  {
    hide Flatten, RetireBatch, Drifts;
    var next := Next(cfg, n, Retire(batch, fault));
    var e := Last(next.trace);
    assert next.trace == n.trace + [e];
    OneMoreEntry(n.trace, e);
  }

  /** The batches handed to the log while it was running, in order. */
  function Submitted(cfg: Config, steps: seq<Step>): seq<seq<Mutation>> {
    if steps == [] then []
    else
      Submitted(cfg, Front(steps)) +
      match Last(steps)
      case Retire(batch, _) => if Exec(cfg, Front(steps)).phase.Running? && batch != [] then [batch] else []
      case _ => []
  }

  function BatchesOf(trace: seq<Entry>): seq<seq<Mutation>> {
    seq(|trace|, i requires 0 <= i < |trace| => trace[i].batch)
  }

  lemma StepSubmits(cfg: Config, n: Node, step: Step)
    requires step.Retire? && n.phase.Running? ==> HasRoom(n.phase.m, step.batch)
    ensures BatchesOf(Next(cfg, n, step).trace) ==
            BatchesOf(n.trace) + if step.Retire? && n.phase.Running? && step.batch != [] then [step.batch] else []
  {
    hide Flatten, RetireBatch, Drifts, RecoverOf, OpenOf, Beyond, CheckpointOf, AfterLoss, Reopened;
  }

  /** The trace lists every batch once, in the order submitted. */
  lemma {:induction false} EveryBatchIsOnce(cfg: Config, steps: seq<Step>)
    requires Volume(steps) <= I64_MAX && Prudent(cfg, steps)
    ensures BatchesOf(Exec(cfg, steps).trace) == Submitted(cfg, steps)
  {
    hide Next, Flatten, Invariant, Holds, BatchesOf, Imprudent;
    if steps == [] {
      NoBatches();
    } else {
      var front := Front(steps);
      EveryBatchIsOnce(cfg, front);
      RunKeeps(cfg, front);
      CrashSafety(cfg, front);
      var before := Exec(cfg, front);
      FlattenFits(before.trace);
      if before.phase.Running? {
        HoldsPosition(before.phase.m.store, Flatten(before.trace));
      }
      StepSubmits(cfg, before, Last(steps));
    }
  }

  lemma NoBatches()
    ensures BatchesOf([]) == []
  {
  }

  // ---- Recovery and removal --------------------------------------------------------------------

  /** Recovering a second time, the first having completed, changes nothing. */
  lemma RecoveringTwice(cfg: Config, steps: seq<Step>)
    requires Volume(steps) <= I64_MAX && Prudent(cfg, steps)
    requires Exec(cfg, steps).phase.Down?
    ensures var once := RecoverStep(cfg, Exec(cfg, steps), true);
            once.phase.Replayed? && RecoverStep(cfg, once, true) == once
  {
    hide Flatten, Next, Prudent, Volume, Holds, RecoverOf, EndOf, RunningHolds, AllRestorable, OpenOf, Settled,
      HoldsLog, DiskFlushed, EncodeAll, Quiet, Whole, InAll;
    var n := Exec(cfg, steps);
    RunKeeps(cfg, steps);
    RecoverKeeps(cfg, n, true);
    var once := RecoverStep(cfg, n, true);
    var Replayed(files, flushed, s, commits, end) := once.phase;
    var more, tail :| ReplayedHolds(cfg, once, more, tail);
    var all := InAll(cfg, once, more, tail);
    HoldsPosition(s, all);
    assert all[..s.applied] == all;
    RestorableIsBehind(commits, all, Oldest(files));
    RecoverWithKeeps(cfg, once, files, flushed, more, tail, s, commits, true);
  }

  lemma RestorableIsBehind(commits: seq<Map>, log: seq<Mutation>, from: nat)
    requires AllRestorable(commits, log, from)
    ensures from <= |log|
  {
    assert Restorable(commits[0], log, from);
  }

  function RemoveTimes(n: Node, k: nat): Node
    requires n.phase.Running?
    ensures RemoveTimes(n, k).phase.Running?
    decreases k
  {
    if k == 0 then n else RemoveTimes(RemoveStep(n), k - 1)
  }

  /** Removing while possible removes exactly the redundant segments, then stops. */
  lemma {:induction false} RemovalIsMaximal(n: Node)
    requires n.phase.Running?
    ensures var Running(m, durable, _) := n.phase;
            var k := Redundant(m.Files(), durable);
            var end := RemoveTimes(n, k);
            && end.phase.m.Files() == m.Files()[k..]
            && end.phase.m.active == m.active && end.phase.m.store == m.store
            && RemoveStep(end) == end
    decreases |n.phase.m.sealed|
  {
    var Running(m, durable, _) := n.phase;
    if m.sealed != [] && m.Files()[1].first <= durable {
      var next := RemoveStep(n);
      assert next.phase.m.Files() == m.Files()[1..];
      RemovalIsMaximal(next);
      var k := Redundant(m.Files()[1..], durable);
      assert m.Files()[1..][k..] == m.Files()[k + 1..];
    }
  }

  // ---- What an unacknowledged write may leave ----------------------------------------------------

  /** How many of the active segment's bytes past the log a power loss keeps. */
  function Reach(cfg: Config, n: Node, cuts: seq<nat>): int
    requires n.phase.Running? && AllEncodable(Flatten(n.trace)) && n.phase.m.first <= |Flatten(n.trace)|
  {
    var m := n.phase.m;
    |SurvivingBytes(m.active.data, m.active.synced, Nth(cuts, |m.sealed|))|
    - |EncodeAll(cfg.crc, Flatten(n.trace)[m.first..])|
  }

  /**
   A power loss adds to a running log exactly the records of the caught batch that lie
   wholly within the bytes it keeps past the log, and with nothing caught adds nothing. So
   an unacknowledged write becomes visible if and only if its first record survives whole.
   */
  lemma UnacknowledgedIsVisible(cfg: Config, steps: seq<Step>, cuts: seq<nat>, restored: nat)
    requires Volume(steps) <= I64_MAX && Prudent(cfg, steps)
    requires Exec(cfg, steps).phase.Running? && restored < |CommitsOf(Exec(cfg, steps).phase)|
    ensures AllEncodable(Flatten(Exec(cfg, steps).trace))
    ensures Exec(cfg, steps).phase.m.first <= |Flatten(Exec(cfg, steps).trace)|
    ensures var n := Exec(cfg, steps);
            var next := CrashStep(cfg, n, cuts, restored);
            && Reach(cfg, n, cuts) >= 0
            && (n.caught.None? ==> next.trace == n.trace)
            && (n.caught.Some? ==>
                  && n.caught.value < |n.trace|
                  && var e := n.trace[n.caught.value];
                     && !e.acked && e.batch != [] && AllEncodable(e.batch)
                     && var k := Whole(cfg.crc, e.batch, Reach(cfg, n, cuts));
                        && next.trace == n.trace[n.caught.value := e.(kept := k)]
                        && Flatten(next.trace) == Flatten(n.trace) + e.batch[..k]
                        && (Flatten(next.trace) != Flatten(n.trace) <==>
                           Reach(cfg, n, cuts) >= |RecordOf(cfg.crc, e.batch[0])|))
  {
    hide EncodeAll, HoldsLog, Holds, AllRestorable, Flatten, Exec, Prudent, Volume, Whole, AfterLoss, OnDisk, Beyond,
      DiskFlushed;
    RunKeeps(cfg, steps);
    var n := Exec(cfg, steps);
    var tail :| RunningHolds(cfg, n, tail);
    var m := n.phase.m;
    ActiveHolds(cfg.crc, m.sealed, m.first, m.active.data, Flatten(n.trace), tail);
    var more := RunningIsOnDisk(cfg, n, tail);
    var k, rest, torn := LossSettles(cfg, n, m.Files(), m.Flushed(), more, tail, cuts);
    NoneOfCaught(cfg, n, m.Files(), m.Flushed(), more, tail);
    LastOfMachine(m);
    if n.caught.Some? {
      SomethingCaught(cfg, n, tail);
      FirstRecord(cfg.crc, more);
      assert k == Whole(cfg.crc, more, Reach(cfg, n, cuts));
    }
  }

  lemma LastOfMachine(m: Machine)
    ensures m.Files() != [] && Last(m.Files()) == File(m.first, m.active.data) && |m.Files()| == |m.sealed| + 1
    ensures Last(m.Flushed()) == m.active.synced
  {
  }

  lemma SomethingCaught(cfg: Config, n: Node, tail: bytes)
    requires CaughtTail(cfg.crc, n.trace, n.caught, tail) && n.caught.Some?
    ensures n.caught.value < |n.trace| && !n.trace[n.caught.value].acked
    ensures n.trace[n.caught.value].batch != [] && AllEncodable(n.trace[n.caught.value].batch)
  {
    hide EncodeAll;
    NothingEncodes(cfg.crc);
  }
}
