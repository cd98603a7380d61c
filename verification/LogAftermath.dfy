/**
 What a crash and a recovery make of a log written on after a failure, for however long:
 any batches, lost and acknowledged, any segments, checkpoints and removals in between.
 */
module LogAftermath {
  import opened Wrappers
  import opened Sequences
  import opened ByteStrings
  import opened Revisions
  import opened Mutations
  import opened OrderedScan
  import opened Frames
  import opened Segments
  import opened LogRecords
  import opened Recovery
  import opened Stores
  import opened LogStores
  import opened LogMachine
  import opened LogRuns
  import opened LogGuarantees
  import opened LogDrift

  /** A step of a log that stays up. */
  predicate StaysUp(step: Step) {
    step.Retire? || step.Checkpoint? || step.Remove?
  }

  // ---- The store and its commits, whatever the files hold -----------------------------------------

  /** The store holds what was acknowledged, and every state it may come back to a beginning of it. */
  ghost predicate StoreKeeps(n: Node) {
    && n.phase.Running? && AllEncodable(Flatten(n.trace))
    && Holds(n.phase.m.store, Flatten(n.trace))
    && AllRestorable(n.phase.m.commits, Flatten(n.trace), 0)
  }

  lemma FromNothing(commits: seq<Map>, log: seq<Mutation>, from: nat)
    requires AllRestorable(commits, log, from)
    ensures AllRestorable(commits, log, 0)
  {
    forall i | 0 <= i < |commits| ensures Restorable(commits[i], log, 0) {
      assert Restorable(commits[i], log, from);
    }
  }

  lemma PrudentKeepsStore(cfg: Config, n: Node)
    requires Invariant(cfg, n) && n.phase.Running?
    ensures StoreKeeps(n)
  {
    hide HoldsLog, Holds, AllRestorable, Flatten, CaughtTail;
    var tail :| RunningHolds(cfg, n, tail);
    FromNothing(n.phase.m.commits, Flatten(n.trace), Oldest(n.phase.m.Files()));
  }

  /** What retiring a batch makes of the store, and of the log. */
  lemma RetiredStore(cfg: Config, n: Node, batch: seq<Mutation>, fault: RetireFault)
    requires n.phase.Running?
    ensures var next := RetireStep(cfg, n, batch, fault);
            && next.phase.Running?
            && (|| (next.phase.m.store == n.phase.m.store && next.phase.m.commits == n.phase.m.commits
                    && Flatten(next.trace) == Flatten(n.trace))
                || (batch != [] && AllEncodable(batch) && HasRoom(n.phase.m, batch)
                    && Flatten(next.trace) == Flatten(n.trace) + batch
                    && var s := ApplyTo(n.phase.m.store, batch, n.phase.m.store.applied + |batch|);
                       next.phase.m.store == s && next.phase.m.commits == n.phase.m.commits + [s.backend]))
  {
    hide EncodeAll, ApplyTo, AppendTo, NameTaken, AllEncodable, Flatten, Drifts;
    var next := RetireStep(cfg, n, batch, fault);
    if next != n {
      OneMoreEntry(n.trace, Last(next.trace));
      NoMutations(Flatten(n.trace));
    }
  }

  lemma RetireKeepsStore(cfg: Config, n: Node, batch: seq<Mutation>, fault: RetireFault)
    requires StoreKeeps(n)
    ensures StoreKeeps(RetireStep(cfg, n, batch, fault))
  {
    hide Flatten, Holds, AllRestorable, RetireStep, ApplyTo;
    var m, log := n.phase.m, Flatten(n.trace);
    RetiredStore(cfg, n, batch, fault);
    HoldsPosition(m.store, log);
    if batch != [] && AllEncodable(batch) && HasRoom(m, batch) {
      AcknowledgedStore(m, log, batch, 0, 0);
    }
  }

  lemma CheckpointKeepsStore(n: Node, ok: bool, visible: bool)
    requires StoreKeeps(n)
    ensures StoreKeeps(CheckpointStep(n, ok, visible))
  {
    hide Flatten, Holds, AllRestorable, CheckpointOf;
    var m, log := n.phase.m, Flatten(n.trace);
    CheckpointHolds(m.store, log);
    CommitIsRestorable(m.commits, CheckpointOf(m.store), log, 0);
    LatestIsRestorable(m.commits, CheckpointOf(m.store), log, 0);
  }

  lemma StepKeepsStore(cfg: Config, n: Node, step: Step)
    requires StoreKeeps(n) && StaysUp(step)
    ensures StoreKeeps(Next(cfg, n, step))
  {
    hide Flatten, Holds, AllRestorable, RetireStep, CheckpointStep, AllEncodable;
    match step
    case Retire(batch, fault) => RetireKeepsStore(cfg, n, batch, fault);
    case Checkpoint(ok, visible) => CheckpointKeepsStore(n, ok, visible);
    case Remove =>
  }

  /** A log that stays up keeps its store right, however imprudent it is. */
  lemma {:induction false} StaysRight(cfg: Config, steps: seq<Step>, more: seq<Step>)
    requires Volume(steps) <= I64_MAX && Prudent(cfg, steps) && Exec(cfg, steps).phase.Running?
    requires forall i :: 0 <= i < |more| ==> StaysUp(more[i])
    ensures StoreKeeps(Exec(cfg, steps + more))
  {
    hide StoreKeeps, Exec, Next, Prudent, Volume, StaysUp;
    if more == [] {
      assert steps + more == steps;
      RunKeeps(cfg, steps);
      PrudentKeepsStore(cfg, Exec(cfg, steps));
    } else {
      StaysRight(cfg, steps, Front(more));
      assert steps + more == steps + Front(more) + [Last(more)];
      OneMoreStep(cfg, steps + Front(more), Last(more));
      StepKeepsStore(cfg, Exec(cfg, steps + Front(more)), Last(more));
    }
  }

  /** So its reads are those of the replayed log of acknowledged batches. */
  lemma ReadsStayRight(cfg: Config, steps: seq<Step>, more: seq<Step>, range: Range, at: Option<nat>,
                       limit: Option<nat>)
    requires Volume(steps) <= I64_MAX && Prudent(cfg, steps) && Exec(cfg, steps).phase.Running?
    requires forall i :: 0 <= i < |more| ==> StaysUp(more[i])
    requires !range.Panics()
    ensures var n := Exec(cfg, steps + more);
            n.phase.Running? && ReadsTheLog(n.phase.m.store, Flatten(n.trace), range, at, limit)
  {
    hide Flatten, Exec, Prudent, Volume, ReadsTheLog, StaysUp, Holds, AllRestorable;
    StaysRight(cfg, steps, more);
    var n := Exec(cfg, steps + more);
    HoldsReads(n.phase.m.store, Flatten(n.trace), range, at, limit);
  }

  // ---- What recovery then makes of the files ---------------------------------------------------------

  lemma {:induction false} ParsedIsEncodable(crc: Crc, b: bytes)
    ensures AllEncodable(Parse(crc, b).records)
    decreases |b|
  {
    hide DecodeRecord;
    DecodedIsRecord(crc, b);
    if b != [] && DecodeRecord(crc, b).Ok? {
      ParsedIsEncodable(crc, b[DecodeRecord(crc, b).value.1..]);
    }
  }

  lemma {:induction false} ScannedIsEncodable(crc: Crc, files: seq<File>, applied: nat, n: nat)
    requires n <= |files| && ScanFiles(crc, files, applied, n).Ok?
    ensures AllEncodable(ScanFiles(crc, files, applied, n).value.pending)
  {
    hide Parse;
    if n > 0 {
      ScannedIsEncodable(crc, files, applied, n - 1);
      ParsedIsEncodable(crc, files[n - 1].data);
    }
  }

  /**
   Whether the files continue a store that had applied the first `applied` acknowledged
   mutations with the others: reading them meets no damage, what lies past `applied` begins
   with those, and is numbered on without a gap or an overlap.
   */
  predicate Continues(crc: Crc, files: seq<File>, applied: nat, acked: seq<Mutation>)
    requires applied <= |acked|
  {
    match ScanFiles(crc, files, applied, |files|)
    case Err(_) => false
    case Ok(found) =>
      && applied <= found.seen && acked[applied..] <= found.pending
      && applied + |found.pending| <= I64_MAX
      && (found.pending == [] || found.seen == applied + |found.pending|)
  }

  lemma RestoredContinues(crc: Crc, files: seq<File>, acked: seq<Mutation>, s: Store, up: Node)
    requires AllEncodable(acked) && s.applied <= |acked| && Holds(s, acked[..s.applied])
    requires var r := RecoverOf(crc, files, s, true);
             if r.Ok? then up.phase.Replayed? && up.phase.store == r.value.0 else up.phase.Refused?
    ensures Stands(up, acked) <==> Continues(crc, files, s.applied, acked)
  {
    hide Holds, Stands, ScanFiles, ApplyTo;
    var before := acked[..s.applied];
    HoldsPosition(s, before);
    match ScanFiles(crc, files, s.applied, |files|)
    case Err(_) => RefusedStandsNot(up, acked);
    case Ok(found) =>
      ScannedIsEncodable(crc, files, s.applied, |files|);
      if found.seen < s.applied || (found.pending != [] && RecoverOf(crc, files, s, true).Err?) {
        RefusedStandsNot(up, acked);
      } else if found.pending == [] {
        StandsOn(up, acked, before);
        SplitsAt(acked, s.applied, []);
        NoMutations(before);
        assert Stands(up, acked) <==> acked[s.applied..] <= [];
        assert |before| <= I64_MAX by { HoldsFits(s, before); }
      } else {
        assert up.phase.store == ApplyTo(s, found.pending, found.seen);
        AppliedContinues(acked, s, found, up);
      }
  }

  lemma HoldsFits(s: Store, log: seq<Mutation>)
    requires Holds(s, log)
    ensures |log| <= I64_MAX
  {
  }

  lemma AppliedPosition(s: Store, batch: seq<Mutation>, upto: nat)
    requires s.current.main + |batch| <= I64_MAX && upto < U64_END
    ensures ApplyTo(s, batch, upto).applied == upto
    ensures ApplyTo(s, batch, upto).current.main == s.current.main + |batch|
  {
  }

  lemma AppliedContinues(acked: seq<Mutation>, s: Store, found: Progress, up: Node)
    requires AllEncodable(acked) && s.applied <= |acked| && Holds(s, acked[..s.applied])
    requires found.pending != [] && AllEncodable(found.pending) && s.current.main + |found.pending| <= I64_MAX
    requires found.seen < U64_END
    requires up.phase.Replayed? && up.phase.store == ApplyTo(s, found.pending, found.seen)
    ensures Stands(up, acked) <==>
            acked[s.applied..] <= found.pending && found.seen == s.applied + |found.pending|
  {
    hide Holds, Stands, ApplyTo;
    var before := acked[..s.applied];
    HoldsPosition(s, before);
    AppliedPosition(s, found.pending, found.seen);
    if found.seen == s.applied + |found.pending| {
      HoldsMore(s, before, found.pending);
      StandsOn(up, acked, before + found.pending);
      SplitsAt(acked, s.applied, found.pending);
    } else {
      DisplacedStandsNot(up, acked);
    }
  }

  lemma SplitsAt<T>(s: seq<T>, n: nat, more: seq<T>)
    requires n <= |s|
    ensures s <= s[..n] + more <==> s[n..] <= more
  {
    assert s == s[..n] + s[n..];
    if s[n..] <= more {
      assert s[..n] + more == s + more[|s| - n..];
    }
    if s <= s[..n] + more {
      assert s[n..] == (s[..n] + more)[..|s|][n..] == more[..|s| - n];
    }
  }

  // ---- Whether the acknowledged log stands ------------------------------------------------------------

  /** A crash, of the process alone or of the power with it, and the commit it comes back to. */
  predicate Crashes(n: Node, step: Step) {
    (step.Crash? || step.Kill?) && step.restored < |CommitsOf(n.phase)|
  }

  lemma CrashIsDown(cfg: Config, n: Node, step: Step)
    requires Crashes(n, step)
    ensures var down := Next(cfg, n, step);
            down.phase.Down? && down.phase.commits != []
            && Last(down.phase.commits) == CommitsOf(n.phase)[step.restored]
  {
    hide CommitsOf, FilesOf, FlushedOf, AfterLoss, Settled;
  }

  lemma {:induction false} ScanFailsCorrupt(crc: Crc, files: seq<File>, applied: nat, n: nat)
    requires n <= |files|
    ensures ScanFiles(crc, files, applied, n).Err? ==> ScanFiles(crc, files, applied, n) == Err(CorruptLog)
  {
    if n > 0 {
      ScanFailsCorrupt(crc, files, applied, n - 1);
    }
  }

  lemma RecoveredFrom(cfg: Config, down: Node, s: Store)
    requires down.phase.Down? && down.phase.commits != [] && OpenOf(Last(down.phase.commits)) == Ok(s)
    ensures var up, r := RecoverStep(cfg, down, true), RecoverOf(cfg.crc, down.phase.files, s, true);
            if r.Ok? then up.phase.Replayed? && up.phase.store == r.value.0 else up.phase.Refused?
  {
    hide OpenOf, ScanFiles, ApplyTo;
    ScanFailsCorrupt(cfg.crc, down.phase.files, s.applied, |down.phase.files|);
  }

  /**
   After any prudent run, and then any steps at all of a log that stays up, however many
   batches were lost and acknowledged, a crash and a recovery leave everything acknowledged
   standing, each mutation at its revision, if and only if the files the crash left
   continue the store it came back to.
   */
  lemma AftermathIsExact(cfg: Config, steps: seq<Step>, more: seq<Step>, crash: Step)
    requires Volume(steps) <= I64_MAX && Prudent(cfg, steps) && Exec(cfg, steps).phase.Running?
    requires forall i :: 0 <= i < |more| ==> StaysUp(more[i])
    requires Crashes(Exec(cfg, steps + more), crash)
    ensures var a := Exec(cfg, steps + more);
            var acked, commit := Flatten(a.trace), OpenOf(CommitsOf(a.phase)[crash.restored]);
            var down := Next(cfg, a, crash);
            && commit.Ok? && commit.value.applied <= |acked|
            && (Stands(RecoverStep(cfg, down, true), acked) <==>
                Continues(cfg.crc, FilesOf(down.phase), commit.value.applied, acked))
  {
    hide Flatten, Exec, Next, Prudent, Volume, StaysUp, Holds, OpenOf, RecoverStep, Stands, Continues, AllEncodable,
      RecoverOf;
    StaysRight(cfg, steps, more);
    var a := Exec(cfg, steps + more);
    assert Restorable(a.phase.m.commits[crash.restored], Flatten(a.trace), 0);
    var s := OpenOf(a.phase.m.commits[crash.restored]).value;
    CrashIsDown(cfg, a, crash);
    var down := Next(cfg, a, crash);
    RecoveredFrom(cfg, down, s);
    RestoredContinues(cfg.crc, down.phase.files, Flatten(a.trace), s, RecoverStep(cfg, down, true));
  }

  /**
   Where the files hold one written log end to end, lost batches included, they continue the
   store if and only if what was written and what was acknowledged agree from its position
   to the end of the acknowledged.
   */
  lemma WrittenContinues(crc: Crc, files: seq<File>, written: seq<Mutation>, applied: nat, acked: seq<Mutation>)
    requires HoldsLog(crc, files, written, []) && files != [] && |written| <= I64_MAX
    requires Oldest(files) <= applied <= |acked|
    ensures Continues(crc, files, applied, acked) <==>
            |acked| <= |written| && acked[applied..] == written[applied..|acked|]
  {
    hide HoldsLog, EncodeAll, Whole;
    EmptyTail(crc, []);
    NothingEncodes(crc);
    NoMutations(written);
    ScanWhole(crc, files, written, [], [], applied, written);
    var pending := From(written, applied, |written|);
    if applied <= |written| {
      assert pending == written[applied..];
      assert |acked| <= |written| ==> written[applied..][..|acked| - applied] == written[applied..|acked|];
    }
  }
}
