/**
 Crash safety of the log over whole runs: whatever fails and whenever the process stops,
 recovery succeeds and the store is the one the surviving log makes.
 */
module LogRuns {
  import opened Wrappers
  import opened Sequences
  import opened ByteStrings
  import opened Revisions
  import opened Mutations
  import opened OrderedScan
  import opened Frames
  import opened LogRecords
  import Joined
  import opened Segments
  import opened Recovery
  import opened Stores
  import opened StoreInvariant
  import opened LogStores
  import opened LogMachine
  import opened LogShapes

  // ---- What is kept of the trace ---------------------------------------------------------

  /** Acknowledged batches are kept whole; of the others only an exposed one may have left anything. */
  ghost predicate Honest(trace: seq<Entry>) {
    forall i :: 0 <= i < |trace| ==>
      && trace[i].kept <= |trace[i].batch|
      && (trace[i].acked ==> trace[i].kept == |trace[i].batch|)
      && (!trace[i].acked && !trace[i].exposed ==> trace[i].kept == 0)
  }

  /** An exposed entry of which nothing has been kept so far, nor of any after it. */
  ghost predicate Quiet(trace: seq<Entry>, i: nat) {
    && i < |trace| && trace[i].exposed && !trace[i].acked
    && forall j :: i <= j < |trace| ==> trace[j].kept == 0
  }

  /** The bytes past the log are the beginning of the caught entry's records. */
  ghost predicate CaughtTail(crc: Crc, trace: seq<Entry>, caught: Option<nat>, tail: bytes) {
    if caught.None? then tail == []
    else
      && Quiet(trace, caught.value)
      && tail != []
      && AllEncodable(trace[caught.value].batch)
      && tail <= EncodeAll(crc, trace[caught.value].batch)
  }

  function Total(trace: seq<Entry>): nat {
    if trace == [] then 0 else Total(Front(trace)) + |Last(trace).batch|
  }

  lemma {:induction false} FlattenFits(trace: seq<Entry>)
    ensures |Flatten(trace)| <= Total(trace)
  {
    if trace != [] {
      FlattenFits(Front(trace));
    }
  }

  lemma OneMoreEntry(trace: seq<Entry>, e: Entry)
    ensures Flatten(trace + [e]) == Flatten(trace) + Kept(e) && Total(trace + [e]) == Total(trace) + |e.batch|
  {
    Snoc(trace, e);
  }

  /** What is kept of a quiet entry joins the end of the log. */
  lemma {:induction false} KeepingCaught(trace: seq<Entry>, i: nat, kept: nat)
    requires Quiet(trace, i) && kept <= |trace[i].batch|
    ensures var next := trace[i := trace[i].(kept := kept)];
            Flatten(next) == Flatten(trace) + trace[i].batch[..kept] && Total(next) == Total(trace)
  {
    var next := trace[i := trace[i].(kept := kept)];
    if i == |trace| - 1 {
      assert Front(next) == Front(trace);
      assert kept == |trace[i].batch| ==> trace[i].batch[..kept] == trace[i].batch;
      assert Kept(Last(trace)) == [];
      assert Flatten(trace) == Flatten(Front(trace));
    } else {
      assert Front(next) == Front(trace)[i := Front(trace)[i].(kept := kept)];
      KeepingCaught(Front(trace), i, kept);
      assert Kept(Last(trace)) == [];
      assert Last(next) == Last(trace);
    }
  }

  // ---- What holds at every point of a run -------------------------------------------------

  function Oldest(files: seq<File>): nat {
    if files == [] then 0 else files[0].first
  }

  /** A backend state from which the log can still be replayed. */
  ghost predicate Restorable(commit: Map, log: seq<Mutation>, from: nat) {
    && OpenOf(commit).Ok?
    && var s := OpenOf(commit).value;
       from <= s.applied <= |log| && Holds(s, log[..s.applied])
  }

  ghost predicate AllRestorable(commits: seq<Map>, log: seq<Mutation>, from: nat) {
    commits != [] && forall i :: 0 <= i < |commits| ==> Restorable(commits[i], log, from)
  }

  ghost predicate SealedFlushed(sealed: seq<File>, flushed: seq<nat>) {
    |flushed| == |sealed| && forall i :: 0 <= i < |sealed| ==> |sealed[i].data| <= flushed[i]
  }

  /** The segments hold the log and the tail; the log is flushed, and unless drifted, all that is counted. */
  ghost predicate LogHeld(cfg: Config, m: Machine, log: seq<Mutation>, tail: bytes, drifted: bool) {
    && HoldsLog(cfg.crc, Listing(m.sealed, m.first, m.active.data), log, tail)
    && m.first <= |log| && SealedFlushed(m.sealed, m.flushed)
    && m.active.limit == cfg.limit && ValidSegment(m.active)
    && |EncodeAll(cfg.crc, log[m.first..])| <= m.active.synced
    && (!drifted ==> m.active.written == |EncodeAll(cfg.crc, log[m.first..])|)
    && (m.active.poisoned ==> m.active.written < m.active.limit || m.first == |log|)
  }

  ghost predicate RunningHolds(cfg: Config, n: Node, tail: bytes)
    requires n.phase.Running?
  {
    var Running(m, durable, drifted) := n.phase;
    var log := Flatten(n.trace);
    && LogHeld(cfg, m, log, tail, drifted)
    && CaughtTail(cfg.crc, n.trace, n.caught, tail)
    && Holds(m.store, log)
    && AllRestorable(m.commits, log, Oldest(m.Files()))
    && AllRestorable(m.commits, log, durable)
  }

  /** Everything but bytes past the log is flushed. */
  ghost predicate DiskFlushed(crc: Crc, files: seq<File>, flushed: seq<nat>, log: seq<Mutation>)
    requires AllEncodable(log)
  {
    && |flushed| == |files|
    && (forall i :: 0 <= i < |files| - 1 ==> |files[i].data| <= flushed[i])
    && (files != [] ==> Last(files).first <= |log| && |EncodeAll(crc, log[Last(files).first..])| <= Last(flushed))
  }

  /** The bytes past a log on disk: the caught entry's, or what is too short to hold a record. */
  ghost predicate Unsettled(crc: Crc, trace: seq<Entry>, caught: Option<nat>, more: seq<Mutation>, tail: bytes) {
    && AllEncodable(more) && tail <= EncodeAll(crc, more)
    && if caught.None? then Whole(crc, more, |tail|) == 0
       else Quiet(trace, caught.value) && more == trace[caught.value].batch
  }

  ghost predicate OnDisk(cfg: Config, n: Node, files: seq<File>, flushed: seq<nat>, more: seq<Mutation>, tail: bytes) {
    var log := Flatten(n.trace);
    && AllEncodable(log)
    && HoldsLog(cfg.crc, files, log, tail)
    && DiskFlushed(cfg.crc, files, flushed, log)
    && Unsettled(cfg.crc, n.trace, n.caught, more, tail)
  }

  /** The log together with the complete records of the bytes past it. */
  function InAll(cfg: Config, n: Node, more: seq<Mutation>, tail: bytes): seq<Mutation>
    requires AllEncodable(more)
  {
    Flatten(n.trace) + more[..Whole(cfg.crc, more, |tail|)]
  }

  function EndOf(crc: Crc, files: seq<File>, log: seq<Mutation>): Option<Tail>
    requires AllEncodable(log)
  {
    if files == [] || Last(files).first > |log| then None
    else Some(Tail(Last(files).first, |EncodeAll(crc, log[Last(files).first..])|))
  }

  ghost predicate DownHolds(cfg: Config, n: Node, more: seq<Mutation>, tail: bytes)
    requires n.phase.Down?
  {
    && OnDisk(cfg, n, n.phase.files, n.phase.flushed, more, tail)
    && AllRestorable(n.phase.commits, InAll(cfg, n, more, tail), Oldest(n.phase.files))
  }

  ghost predicate ReplayedHolds(cfg: Config, n: Node, more: seq<Mutation>, tail: bytes)
    requires n.phase.Replayed?
  {
    && OnDisk(cfg, n, n.phase.files, n.phase.flushed, more, tail)
    && var all := InAll(cfg, n, more, tail);
       && AllRestorable(n.phase.commits, all, Oldest(n.phase.files))
       && AllEncodable(all) && Holds(n.phase.store, all) && n.phase.tail == EndOf(cfg.crc, n.phase.files, all)
  }

  ghost predicate Invariant(cfg: Config, n: Node) {
    && Honest(n.trace)
    && AllEncodable(Flatten(n.trace))
    && match n.phase
       case Down(_, _, _) => exists more, tail :: DownHolds(cfg, n, more, tail)
       case Replayed(_, _, _, _, _) => exists more, tail :: ReplayedHolds(cfg, n, more, tail)
       case Running(_, _, _) => exists tail :: RunningHolds(cfg, n, tail)
       case Refused => false
  }

  // ---- Retiring a batch ------------------------------------------------------------------

  lemma EncodableIsStorable(log: seq<Mutation>)
    requires AllEncodable(log)
    ensures Storable(log)
  {
    forall i | 0 <= i < |log| ensures |log[i].key| < U32_END {
      assert Encodable(log[i]);
    }
  }

  lemma SomethingEncodes(crc: Crc, batch: seq<Mutation>)
    requires AllEncodable(batch) && batch != []
    ensures EncodeAll(crc, batch) != []
  {
    FirstRecord(crc, batch);
  }

  lemma NothingEncodes(crc: Crc)
    ensures EncodeAll(crc, []) == []
  {
  }

  /** The machine an append goes to: rolled over when the active segment is full. */
  function ReadyFor(m: Machine): Machine {
    if m.active.written >= m.active.limit then Rolled(m) else m
  }

  /** A full segment has a free name to roll over to, another one takes more bytes. */
  predicate CanWrite(m: Machine) {
    if m.active.written >= m.active.limit then !NameTaken(m, m.store.applied) else !m.active.poisoned
  }

  /** What an append goes to has nothing past the log; a poisoned segment is never sealed. */
  lemma GetsReady(cfg: Config, m: Machine, log: seq<Mutation>, tail: bytes)
    requires LogHeld(cfg, m, log, tail, false) && m.store.applied == |log|
    requires CanWrite(m)
    ensures tail == []
    ensures var ready := ReadyFor(m);
            && LogHeld(cfg, ready, log, [], false) && !ready.active.poisoned
            && (ready.active.written < ready.active.limit || ready.first == |log|)
            && Oldest(ready.Files()) == Oldest(m.Files())
            && (if m.active.written >= m.active.limit then ready.active.data == [] else ready == m)
  {
    hide EncodeAll, HoldsLog;
    var data := m.active.data;
    ActiveHolds(cfg.crc, m.sealed, m.first, data, log, tail);
    NothingEncodes(cfg.crc);
    if m.active.written >= m.active.limit {
      assert m.first != |log| by {
        assert File(m.first, data) in m.Files();
      }
      SomethingEncodes(cfg.crc, log[m.first..]);
      LogRolls(cfg.crc, m.sealed, m.first, data, log);
      assert log[|log|..] == [];
    }
  }

  lemma NoBytes(b: bytes)
    ensures b + [] == b
  {
  }

  /** An append that succeeds puts the whole batch at the end of the log. */
  lemma AppendExtends(cfg: Config, m: Machine, log: seq<Mutation>, batch: seq<Mutation>)
    requires LogHeld(cfg, m, log, [], false) && !m.active.poisoned && AllEncodable(batch)
    ensures var next := m.(active := AppendTo(m.active, EncodeAll(cfg.crc, batch), NoFault));
            AllEncodable(log + batch) && LogHeld(cfg, next, log + batch, [], false)
  {
    hide EncodeAll, HoldsLog;
    var more := EncodeAll(cfg.crc, batch);
    ActiveHolds(cfg.crc, m.sealed, m.first, m.active.data, log, []);
    LogGrows(cfg.crc, m.sealed, m.first, m.active.data, log, batch, []);
    NoBytes(m.active.data + more);
    EncodeConcat(cfg.crc, log[m.first..], batch);
    assert (log + batch)[m.first..] == log[m.first..] + batch;
  }

  /** An append whose batch is not acknowledged leaves at most a beginning of it past the log. */
  lemma AppendExposes(cfg: Config, m: Machine, log: seq<Mutation>, batch: seq<Mutation>, fault: AppendFault)
    returns (tail: bytes)
    requires LogHeld(cfg, m, log, [], false) && !m.active.poisoned && AllEncodable(batch)
    requires m.active.written < m.active.limit || m.first == |log|
    ensures var next := m.(active := AppendTo(m.active, EncodeAll(cfg.crc, batch), fault));
            && tail <= EncodeAll(cfg.crc, batch)
            && LogHeld(cfg, next, log, tail, !fault.ShortWrite?)
            && |next.active.data| == |m.active.data| + |tail|
  {
    hide EncodeAll, HoldsLog;
    var b := EncodeAll(cfg.crc, batch);
    tail := match fault case ShortWrite(n, rewind) => if rewind.Unchanged? then Cut(b, n) else [] case _ => b;
    ActiveHolds(cfg.crc, m.sealed, m.first, m.active.data, log, []);
    NoBytes(m.active.data);
    NoBytes(EncodeAll(cfg.crc, log[m.first..]));
    TailChanges(cfg.crc, m.sealed, m.first, m.active.data, log, [], tail);
  }

  lemma StillRestorable(commits: seq<Map>, log: seq<Mutation>, more: seq<Mutation>, from: nat)
    requires AllRestorable(commits, log, from)
    ensures AllRestorable(commits, log + more, from)
  {
    forall i | 0 <= i < |commits| ensures Restorable(commits[i], log + more, from) {
      assert Restorable(commits[i], log, from);
      var s := OpenOf(commits[i]).value;
      assert (log + more)[..s.applied] == log[..s.applied];
    }
  }

  lemma CommitIsRestorable(commits: seq<Map>, s: Store, log: seq<Mutation>, from: nat)
    requires AllRestorable(commits, log, from) && Holds(s, log) && AllEncodable(log)
    ensures AllRestorable(commits + [s.backend], log, from) && OpenOf(s.backend) == Ok(s)
  {
    EncodableIsStorable(log);
    HoldsReopens(s, log);
    assert log[..s.applied] == log;
    var all := commits + [s.backend];
    assert Restorable(commits[0], log, from);
    forall i | 0 <= i < |all| ensures Restorable(all[i], log, from) {
      assert i < |commits| ==> all[i] == commits[i];
    }
  }

  lemma HoldsPosition(s: Store, log: seq<Mutation>)
    requires Holds(s, log)
    ensures s.applied == s.current.main == |log|
  {
  }

  /** A batch nothing of which was written changes nothing but the trace. */
  lemma RefusalKeeps(cfg: Config, n: Node, batch: seq<Mutation>, tail: bytes)
    requires n.phase.Running? && RunningHolds(cfg, n, tail) && Honest(n.trace)
    ensures var next := n.(trace := n.trace + [Entry(batch, false, false, 0)]);
            Honest(next.trace) && RunningHolds(cfg, next, tail) && Flatten(next.trace) == Flatten(n.trace)
  {
    hide LogHeld, Holds, AllRestorable, EncodeAll, Flatten;
    var e := Entry(batch, false, false, 0);
    OneMoreEntry(n.trace, e);
    assert Kept(e) == [];
    assert Flatten(n.trace) + [] == Flatten(n.trace);
  }

  ghost predicate Wrote(m: Machine, batch: seq<Mutation>, fault: RetireFault) {
    && AllEncodable(batch)
    && CanWrite(m)
    && !(m.active.written >= m.active.limit && fault.RollFails?)
  }

  lemma ReadyHolds(cfg: Config, n: Node, tail: bytes)
    requires n.phase.Running? && RunningHolds(cfg, n, tail) && !n.phase.drifted
    requires CanWrite(n.phase.m)
    ensures tail == [] && n.caught == None
    ensures var m := n.phase.m;
            var ready := ReadyFor(m);
            && LogHeld(cfg, ready, Flatten(n.trace), [], false) && !ready.active.poisoned
            && (ready.active.written < ready.active.limit || ready.first == |Flatten(n.trace)|)
            && ready.store == m.store && ready.commits == m.commits
            && Oldest(ready.Files()) == Oldest(m.Files())
  {
    hide LogHeld, AllRestorable, Holds, Flatten, Quiet;
    HoldsPosition(n.phase.m.store, Flatten(n.trace));
    GetsReady(cfg, n.phase.m, Flatten(n.trace), tail);
  }

  /** The machine after a batch's bytes were appended. */
  function WroteTo(crc: Crc, m: Machine, batch: seq<Mutation>, append: AppendFault): Machine
    requires AllEncodable(batch)
  {
    ReadyFor(m).(active := AppendTo(ReadyFor(m).active, EncodeAll(crc, batch), append))
  }

  function AppendOf(fault: RetireFault): AppendFault {
    if fault.AppendFault? then fault.append else NoFault
  }

  lemma AcknowledgedStep(cfg: Config, n: Node, batch: seq<Mutation>, fault: RetireFault)
    requires n.phase.Running? && HasRoom(n.phase.m, batch) && batch != [] && Wrote(n.phase.m, batch, fault)
    requires AppendOk(ReadyFor(n.phase.m).active, AppendOf(fault)) && !fault.ApplyFails?
    ensures var m := n.phase.m;
            var s := ApplyTo(m.store, batch, m.store.applied + |batch|);
            RetireStep(cfg, n, batch, fault) ==
            Node(Running(Committed(WroteTo(cfg.crc, m, batch, NoFault), s), n.phase.durable, n.phase.drifted),
                 n.trace + [Entry(batch, true, false, |batch|)], n.caught)
  {
    hide EncodeAll, ApplyTo, NameTaken, AllEncodable, AppendTo;
  }

  lemma FailedStep(cfg: Config, n: Node, batch: seq<Mutation>, fault: RetireFault)
    requires n.phase.Running? && HasRoom(n.phase.m, batch) && batch != [] && Wrote(n.phase.m, batch, fault)
    requires !AppendOk(ReadyFor(n.phase.m).active, AppendOf(fault)) || fault.ApplyFails?
    ensures var m := n.phase.m;
            var next := WroteTo(cfg.crc, m, batch, AppendOf(fault));
            var exposed := |next.active.data| > |ReadyFor(m).active.data|;
            RetireStep(cfg, n, batch, fault) ==
            Node(Running(next, n.phase.durable, n.phase.drifted || Drifts(m, batch, fault)),
                 n.trace + [Entry(batch, false, exposed, 0)], if exposed then Some(|n.trace|) else n.caught)
  {
    hide EncodeAll, ApplyTo, NameTaken, AllEncodable, AppendTo, Drifts;
  }

  lemma RefusedStep(cfg: Config, n: Node, batch: seq<Mutation>, fault: RetireFault)
    requires n.phase.Running? && HasRoom(n.phase.m, batch) && batch != [] && !Wrote(n.phase.m, batch, fault)
    ensures RetireStep(cfg, n, batch, fault) == n.(trace := n.trace + [Entry(batch, false, false, 0)])
  {
    hide EncodeAll, ApplyTo, NameTaken, AllEncodable;
  }

  /** An acknowledged batch joins the log whole. */
  lemma AcknowledgedKeeps(cfg: Config, n: Node, batch: seq<Mutation>, tail: bytes)
    requires n.phase.Running? && RunningHolds(cfg, n, tail) && Honest(n.trace)
    requires !n.phase.drifted && batch != [] && |Flatten(n.trace)| + |batch| <= I64_MAX
    requires AllEncodable(batch) && CanWrite(n.phase.m)
    ensures var m := n.phase.m;
            var s := ApplyTo(m.store, batch, m.store.applied + |batch|);
            var next := Node(Running(Committed(WroteTo(cfg.crc, m, batch, NoFault), s), n.phase.durable, false),
                             n.trace + [Entry(batch, true, false, |batch|)], n.caught);
            && Flatten(next.trace) == Flatten(n.trace) + batch
            && RunningHolds(cfg, next, []) && AllEncodable(Flatten(next.trace))
  {
    hide HoldsLog, Holds, AllRestorable, EncodeAll, ApplyTo, Flatten, LogHeld, Quiet, WroteTo, AllEncodable;
    var m, log := n.phase.m, Flatten(n.trace);
    HoldsPosition(m.store, log);
    AcknowledgedLog(cfg, n, batch, tail);
    AcknowledgedStore(m, log, batch, Oldest(m.Files()), n.phase.durable);
    OneMoreEntry(n.trace, Entry(batch, true, false, |batch|));
    var written := WroteTo(cfg.crc, m, batch, NoFault);
    StoreIsApart(cfg, written, ApplyTo(m.store, batch, |log| + |batch|), log + batch, [], false);
  }

  lemma AcknowledgedLog(cfg: Config, n: Node, batch: seq<Mutation>, tail: bytes)
    requires n.phase.Running? && RunningHolds(cfg, n, tail) && !n.phase.drifted && AllEncodable(batch)
    requires CanWrite(n.phase.m)
    ensures n.caught == None && AllEncodable(Flatten(n.trace) + batch)
    ensures var written := WroteTo(cfg.crc, n.phase.m, batch, NoFault);
            && LogHeld(cfg, written, Flatten(n.trace) + batch, [], false)
            && written.commits == n.phase.m.commits && Oldest(written.Files()) == Oldest(n.phase.m.Files())
  {
    hide HoldsLog, Holds, AllRestorable, EncodeAll, Flatten, LogHeld, Quiet, AppendTo, RunningHolds, AllEncodable;
    ReadyHolds(cfg, n, tail);
    AppendExtends(cfg, ReadyFor(n.phase.m), Flatten(n.trace), batch);
  }

  /** Applying a batch of the log leaves every state a crash may restore one the log continues. */
  lemma AcknowledgedStore(m: Machine, log: seq<Mutation>, batch: seq<Mutation>, oldest: nat, durable: nat)
    requires Holds(m.store, log) && batch != [] && |log| + |batch| <= I64_MAX && AllEncodable(log + batch)
    requires AllRestorable(m.commits, log, oldest) && AllRestorable(m.commits, log, durable)
    ensures var s := ApplyTo(m.store, batch, |log| + |batch|);
            && Holds(s, log + batch)
            && AllRestorable(m.commits + [s.backend], log + batch, oldest)
            && AllRestorable(m.commits + [s.backend], log + batch, durable)
  {
    hide Holds, AllRestorable, ApplyTo;
    HoldsPosition(m.store, log);
    HoldsMore(m.store, log, batch);
    var s := ApplyTo(m.store, batch, |log| + |batch|);
    StillRestorable(m.commits, log, batch, oldest);
    StillRestorable(m.commits, log, batch, durable);
    CommitIsRestorable(m.commits, s, log + batch, oldest);
    CommitIsRestorable(m.commits, s, log + batch, durable);
  }

  /** The segments hold the log whatever the store and its commits are. */
  lemma StoreIsApart(cfg: Config, m: Machine, s: Store, log: seq<Mutation>, tail: bytes, drifted: bool)
    requires LogHeld(cfg, m, log, tail, drifted)
    ensures LogHeld(cfg, Committed(m, s), log, tail, drifted)
    ensures Oldest(Committed(m, s).Files()) == Oldest(m.Files())
  {
    hide HoldsLog, EncodeAll;
  }

  /** A batch that failed after something of it was written leaves the log as it was. */
  lemma FailureKeeps(cfg: Config, n: Node, batch: seq<Mutation>, fault: RetireFault, tail: bytes)
    requires n.phase.Running? && RunningHolds(cfg, n, tail) && Honest(n.trace)
    requires !n.phase.drifted && batch != [] && HasRoom(n.phase.m, batch) && Wrote(n.phase.m, batch, fault)
    requires !AppendOk(ReadyFor(n.phase.m).active, AppendOf(fault)) || fault.ApplyFails?
    ensures var next := RetireStep(cfg, n, batch, fault);
            Invariant(cfg, next) && Flatten(next.trace) == Flatten(n.trace)
  {
    hide HoldsLog, Holds, AllRestorable, EncodeAll, ApplyTo, Flatten, LogHeld, NameTaken, RetireStep, AppendTo;
    var m, log := n.phase.m, Flatten(n.trace);
    ReadyHolds(cfg, n, tail);
    FailedStep(cfg, n, batch, fault);
    var torn := AppendExposes(cfg, ReadyFor(m), log, batch, AppendOf(fault));
    var next := RetireStep(cfg, n, batch, fault);
    assert next.phase.drifted <==> !AppendOf(fault).ShortWrite?;
    var e := Entry(batch, false, torn != [], 0);
    assert next.trace == n.trace + [e];
    OneMoreEntry(n.trace, e);
    assert Kept(e) == [];
    NoMutations(log);
    HeldIsEncodable(cfg, ReadyFor(m), log);
    assert CaughtTail(cfg.crc, next.trace, next.caught, torn);
    assert RunningHolds(cfg, next, torn);
  }

  lemma NoMutations(log: seq<Mutation>)
    ensures log + [] == log
  {
  }

  lemma HeldIsEncodable(cfg: Config, m: Machine, log: seq<Mutation>)
    requires LogHeld(cfg, m, log, [], false)
    ensures AllEncodable(log)
  {
  }

  /** Retiring keeps the invariant, and only ever adds to the log. */
  lemma RetireKeeps(cfg: Config, n: Node, batch: seq<Mutation>, fault: RetireFault)
    requires n.phase.Running? && Invariant(cfg, n) && !n.phase.drifted
    requires |Flatten(n.trace)| + |batch| <= I64_MAX
    ensures var next := RetireStep(cfg, n, batch, fault);
            Invariant(cfg, next) && Flatten(n.trace) <= Flatten(next.trace)
  {
    hide LogHeld, Holds, AllRestorable, EncodeAll, Flatten, RetireStep, ApplyTo, AllEncodable, NameTaken, CaughtTail;
    var tail :| RunningHolds(cfg, n, tail);
    var m, log := n.phase.m, Flatten(n.trace);
    HoldsPosition(m.store, log);
    assert HasRoom(m, batch);
    if batch == [] {
      NothingToRetire(cfg, n, fault);
    } else if !Wrote(m, batch, fault) {
      RefusedStep(cfg, n, batch, fault);
      RefusalKeeps(cfg, n, batch, tail);
    } else if !AppendOk(ReadyFor(m).active, AppendOf(fault)) || fault.ApplyFails? {
      FailureKeeps(cfg, n, batch, fault, tail);
    } else {
      AcknowledgedStep(cfg, n, batch, fault);
      AcknowledgedKeeps(cfg, n, batch, tail);
      var next := RetireStep(cfg, n, batch, fault);
      assert RunningHolds(cfg, next, []);
    }
  }

  lemma NothingToRetire(cfg: Config, n: Node, fault: RetireFault)
    requires n.phase.Running?
    ensures RetireStep(cfg, n, [], fault) == n
  {
  }

  // ---- Checkpoints and removal ------------------------------------------------------------

  /** A checkpoint leaves the log alone; a durable one is all a crash can restore. */
  lemma CheckpointKeeps(cfg: Config, n: Node, ok: bool, visible: bool)
    requires n.phase.Running? && Invariant(cfg, n)
    ensures Invariant(cfg, CheckpointStep(n, ok, visible))
    ensures CheckpointStep(n, ok, visible).trace == n.trace
  {
    hide HoldsLog, Holds, AllRestorable, EncodeAll, Flatten, CaughtTail, LogHeld, CheckpointOf, AllEncodable;
    var tail :| RunningHolds(cfg, n, tail);
    var m, log := n.phase.m, Flatten(n.trace);
    CheckpointHolds(m.store, log);
    HoldsPosition(m.store, log);
    var s := CheckpointOf(m.store);
    HoldsPosition(s, log);
    CommitIsRestorable(m.commits, s, log, Oldest(m.Files()));
    CommitIsRestorable(m.commits, s, log, n.phase.durable);
    LatestIsRestorable(m.commits, s, log, Oldest(m.Files()));
    StoreIsApart(cfg, m, s, log, tail, n.phase.drifted);
    CommitsAreApart(cfg, m, s, [s.backend], log, tail, n.phase.drifted);
    var next := CheckpointStep(n, ok, visible);
    assert RunningHolds(cfg, next, tail);
  }

  lemma CommitsAreApart(cfg: Config, m: Machine, s: Store, commits: seq<Map>, log: seq<Mutation>, tail: bytes,
                        drifted: bool)
    requires LogHeld(cfg, m, log, tail, drifted)
    ensures LogHeld(cfg, m.(store := s, commits := commits), log, tail, drifted)
    ensures Oldest(m.(store := s, commits := commits).Files()) == Oldest(m.Files())
  {
    hide HoldsLog, EncodeAll;
  }

  lemma LatestIsRestorable(commits: seq<Map>, s: Store, log: seq<Mutation>, from: nat)
    requires AllRestorable(commits, log, from) && Holds(s, log) && AllEncodable(log)
    ensures from <= |log| && AllRestorable([s.backend], log, from) && AllRestorable([s.backend], log, |log|)
  {
    EncodableIsStorable(log);
    HoldsReopens(s, log);
    HoldsPosition(s, log);
    assert log[..s.applied] == log;
    assert Restorable(commits[0], log, from);
  }

  /** Removing a redundant segment loses nothing a crash could need. */
  lemma RemoveKeeps(cfg: Config, n: Node)
    requires n.phase.Running? && Invariant(cfg, n)
    ensures Invariant(cfg, RemoveStep(n)) && RemoveStep(n).trace == n.trace
  {
    hide HoldsLog, Holds, EncodeAll, Flatten, CaughtTail, OpenOf;
    var tail :| RunningHolds(cfg, n, tail);
    var Running(m, durable, _) := n.phase;
    var log := Flatten(n.trace);
    if m.sealed != [] && m.Files()[1].first <= durable {
      var files := m.Files();
      LogDrops(cfg.crc, files, log, tail);
      var next := RemoveStep(n).phase.m;
      assert next.Files() == files[1..] == Listing(next.sealed, next.first, next.active.data);
      forall i | 0 <= i < |m.commits| ensures Restorable(m.commits[i], log, files[1].first) {
        assert Restorable(m.commits[i], log, durable);
      }
      assert RunningHolds(cfg, RemoveStep(n), tail);
    }
  }

  /** A power loss may keep any beginning of a file that has everything flushed, and no other. */
  lemma AnyBeginningSurvives(data: bytes, flushed: nat, left: bytes)
    requires flushed <= |data|
    ensures (exists cut :: SurvivingBytes(data, flushed, cut) == left) <==> left <= data && flushed <= |left|
  {
    if left <= data && flushed <= |left| {
      assert SurvivingBytes(data, flushed, |left|) == left;
    }
  }

  // ---- Losing power ---------------------------------------------------------------------------

  lemma FrontAndLast(files: seq<File>)
    requires files != []
    ensures files == Listing(Front(files), Last(files).first, Last(files).data)
  {
  }

  /** What is at least as long as a flushed front survives with it. */
  lemma SurvivingFront(front: bytes, tail: bytes, flushed: nat, cut: nat) returns (left: bytes)
    requires |front| <= flushed
    ensures left <= tail && SurvivingBytes(front + tail, flushed, cut) == front + left
  {
    var survives := SurvivingBytes(front + tail, flushed, cut);
    left := survives[|front|..];
    assert left == tail[..|left|];
  }

  /** What is flushed survives whole. */
  lemma NothingToLose(files: seq<File>, flushed: seq<nat>, cuts: seq<nat>)
    requires SealedFlushed(files, flushed)
    ensures AfterLoss(files, flushed, cuts) == files
  {
  }

  lemma LossOfLast(files: seq<File>, flushed: seq<nat>, cuts: seq<nat>)
    requires files != [] && |flushed| == |files|
    requires forall i :: 0 <= i < |files| - 1 ==> |files[i].data| <= flushed[i]
    ensures var cut := SurvivingBytes(Last(files).data, Last(flushed), Nth(cuts, |files| - 1));
            AfterLoss(files, flushed, cuts) == Listing(Front(files), Last(files).first, cut)
  {
  }

  /** A power loss keeps the flushed log and some prefix of the bytes past it. */
  lemma LossKeepsLog(cfg: Config, n: Node, files: seq<File>, flushed: seq<nat>, more: seq<Mutation>, tail: bytes,
                     cuts: seq<nat>)
    returns (left: bytes)
    requires OnDisk(cfg, n, files, flushed, more, tail) && files != []
    ensures left <= tail
    ensures var log, f := Flatten(n.trace), Last(files);
            && AllEncodable(log) && f.first <= |log|
            && SurvivingBytes(f.data, Last(flushed), Nth(cuts, |files| - 1)) ==
               EncodeAll(cfg.crc, log[f.first..]) + left
            && AfterLoss(files, flushed, cuts) ==
               Listing(Front(files), f.first, EncodeAll(cfg.crc, log[f.first..]) + left)
            && HoldsLog(cfg.crc, AfterLoss(files, flushed, cuts), log, left)
  {
    hide HoldsLog, EncodeAll, Flatten, SurvivingBytes, AfterLoss, Unsettled;
    var log, f := Flatten(n.trace), Last(files);
    FrontAndLast(files);
    ActiveHolds(cfg.crc, Front(files), f.first, f.data, log, tail);
    left := SurvivingFront(EncodeAll(cfg.crc, log[f.first..]), tail, Last(flushed), Nth(cuts, |files| - 1));
    LossOfLast(files, flushed, cuts);
    TailChanges(cfg.crc, Front(files), f.first, f.data, log, tail, left);
  }

  /** A cut of some records is the complete ones, then a beginning of the next. */
  lemma SplitAtCut(crc: Crc, more: seq<Mutation>, left: bytes) returns (torn: bytes)
    requires AllEncodable(more) && left <= EncodeAll(crc, more)
    ensures var k := Whole(crc, more, |left|);
            && left == EncodeAll(crc, more[..k]) + torn
            && torn <= EncodeAll(crc, more[k..]) && Whole(crc, more[k..], |torn|) == 0
  {
    hide EncodeAll, Whole, Parse;
    var k := Whole(crc, more, |left|);
    var whole, rest := EncodeAll(crc, more[..k]), EncodeAll(crc, more[k..]);
    LogThenCutParses(crc, [], more, left);
    assert more[..k] + more[k..] == more;
    EncodeConcat(crc, more[..k], more[k..]);
    PastFirst(whole, rest, left);
    torn := left[|whole|..];
    CutFacts(crc, more[..k], more[k..], torn);
  }

  /** The complete records of bytes past the log join it; what is left begins the next. */
  lemma LeftJoins(crc: Crc, sealed: seq<File>, first: nat, log: seq<Mutation>, more: seq<Mutation>, left: bytes)
    returns (torn: bytes)
    requires AllEncodable(log) && AllEncodable(more) && left <= EncodeAll(crc, more) && first <= |log|
    requires HoldsLog(crc, Listing(sealed, first, EncodeAll(crc, log[first..]) + left), log, left)
    ensures var files := Listing(sealed, first, EncodeAll(crc, log[first..]) + left);
            var k := Whole(crc, more, |left|);
            && Beyond(crc, files, |log|) == k
            && AllEncodable(log + more[..k])
            && HoldsLog(crc, files, log + more[..k], torn)
            && torn <= EncodeAll(crc, more[k..]) && Whole(crc, more[k..], |torn|) == 0
            && |EncodeAll(crc, (log + more[..k])[first..])| <= |Last(files).data|
  {
    hide EncodeAll, Whole, Parse, HoldsLog;
    var k := Whole(crc, more, |left|);
    var whole := EncodeAll(crc, log[first..]);
    LastSegmentParses(crc, log, more, left, first);
    torn := SplitAtCut(crc, more, left);
    ActiveHolds(crc, sealed, first, whole + left, log, left);
    LogGrows(crc, sealed, first, whole, log, more[..k], torn);
    assert whole + EncodeAll(crc, more[..k]) + torn == whole + left;
    ActiveHolds(crc, sealed, first, whole + left, log + more[..k], torn);
  }

  lemma ShorterHoldsLess(crc: Crc, more: seq<Mutation>, left: bytes, tail: bytes)
    requires AllEncodable(more) && left <= tail
    ensures Whole(crc, more, |left|) <= Whole(crc, more, |tail|)
  {
    Joined.WithinRises(LogRecords.Records(crc, more), |left|, |tail|);
  }

  /** Settling keeps the complete records the files hold of the caught entry. */
  lemma SettlingKeeps(cfg: Config, n: Node, more: seq<Mutation>, k: nat)
    requires AllEncodable(more) && k <= |more|
    requires if n.caught.None? then k == 0 else Quiet(n.trace, n.caught.value) && more == n.trace[n.caught.value].batch
    requires Honest(n.trace)
    ensures var next := Keep(n.trace, n.caught, k);
            Flatten(next) == Flatten(n.trace) + more[..k] && Total(next) == Total(n.trace) && Honest(next)
  {
    hide Flatten;
    if n.caught.None? {
      NoMutations(Flatten(n.trace));
      assert more[..0] == [];
    } else {
      KeepingCaught(n.trace, n.caught.value, k);
    }
  }

  /** What a power loss leaves of the bytes past the log. */
  lemma LossSettles(cfg: Config, n: Node, files: seq<File>, flushed: seq<nat>, more: seq<Mutation>, tail: bytes,
                    cuts: seq<nat>)
    returns (k: nat, rest: seq<Mutation>, torn: bytes)
    requires OnDisk(cfg, n, files, flushed, more, tail) && Honest(n.trace)
    ensures k <= Whole(cfg.crc, more, |tail|) && k <= |more|
    ensures files != [] ==>
              var f, log := Last(files), Flatten(n.trace);
              && f.first <= |log| && AllEncodable(log)
              && var reach := |SurvivingBytes(f.data, Last(flushed), Nth(cuts, |files| - 1))|
                              - |EncodeAll(cfg.crc, log[f.first..])|;
                 reach >= 0 && k == Whole(cfg.crc, more, reach)
    ensures var left := AfterLoss(files, flushed, cuts);
            var trace := Settled(cfg.crc, n, left);
            && trace == Keep(n.trace, n.caught, k)
            && Flatten(trace) == Flatten(n.trace) + more[..k] && Honest(trace)
            && OnDisk(cfg, Node(n.phase, trace, None), left, Lengths(left), rest, torn)
            && Oldest(left) == Oldest(files)
  {
    hide HoldsLog, EncodeAll, Flatten, Whole, Beyond, Quiet, Parse, AfterLoss;
    var log, left := Flatten(n.trace), AfterLoss(files, flushed, cuts);
    if files == [] {
      k, rest, torn := 0, [], [];
      LossOfNothing(cfg, n, flushed, more, tail, cuts);
    } else {
      var bytes' := LossKeepsLog(cfg, n, files, flushed, more, tail, cuts);
      ShorterHoldsLess(cfg.crc, more, bytes', tail);
      k := Whole(cfg.crc, more, |bytes'|);
      rest := more[k..];
      torn := LeftJoins(cfg.crc, Front(files), Last(files).first, log, more, bytes');
      SettlingKeeps(cfg, n, more, k);
      LengthsAreFlushed(cfg.crc, left, log + more[..k]);
      ListingEnds(Front(files), Last(files).first, Last(left).data);
      FrontAndLast(files);
      SameOldest(Front(files), Last(files).first, Last(files).data, Last(left).data);
    }
  }

  lemma SameOldest(sealed: seq<File>, first: nat, a: bytes, b: bytes)
    ensures Oldest(Listing(sealed, first, a)) == Oldest(Listing(sealed, first, b))
  {
  }

  lemma LengthsAreFlushed(crc: Crc, files: seq<File>, log: seq<Mutation>)
    requires AllEncodable(log) && files != [] && Last(files).first <= |log|
    requires |EncodeAll(crc, log[Last(files).first..])| <= |Last(files).data|
    ensures DiskFlushed(crc, files, Lengths(files), log)
  {
  }

  lemma LossOfNothing(cfg: Config, n: Node, flushed: seq<nat>, more: seq<Mutation>, tail: bytes, cuts: seq<nat>)
    requires OnDisk(cfg, n, [], flushed, more, tail) && Honest(n.trace)
    ensures Flatten(n.trace) == [] && AfterLoss([], flushed, cuts) == []
    ensures var trace := Settled(cfg.crc, n, []);
            && trace == Keep(n.trace, n.caught, 0)
            && Flatten(trace) == [] + more[..0] && Honest(trace)
            && OnDisk(cfg, Node(n.phase, trace, None), [], Lengths([]), [], [])
  {
    hide EncodeAll, Flatten, Whole;
    SettlingKeeps(cfg, n, more, 0);
    EmptyTail(cfg.crc, []);
    NothingEncodes(cfg.crc);
    assert [] + more[..0] == [];
  }

  lemma RunningIsOnDisk(cfg: Config, n: Node, tail: bytes) returns (more: seq<Mutation>)
    requires n.phase.Running? && RunningHolds(cfg, n, tail)
    ensures OnDisk(cfg, n, n.phase.m.Files(), n.phase.m.Flushed(), more, tail)
    ensures AllRestorable(n.phase.m.commits, InAll(cfg, n, more, tail), Oldest(n.phase.m.Files()))
    ensures AllRestorable(n.phase.m.commits, Flatten(n.trace), Oldest(n.phase.m.Files()))
  {
    hide HoldsLog, EncodeAll, Flatten, Whole, Quiet, Holds, AllRestorable;
    var m, log := n.phase.m, Flatten(n.trace);
    more := if n.caught.None? || n.caught.value >= |n.trace| then [] else n.trace[n.caught.value].batch;
    EmptyTail(cfg.crc, []);
    NothingEncodes(cfg.crc);
    ActiveHolds(cfg.crc, m.sealed, m.first, m.active.data, log, tail);
    ListingEnds(m.sealed, m.first, m.active.data);
    QuietInside(cfg.crc, n.trace, n.caught, tail);
    StillRestorable(m.commits, log, more[..Whole(cfg.crc, more, |tail|)], Oldest(m.Files()));
  }

  lemma QuietInside(crc: Crc, trace: seq<Entry>, caught: Option<nat>, tail: bytes)
    requires CaughtTail(crc, trace, caught, tail)
    ensures caught.Some? ==> caught.value < |trace| && Quiet(trace, caught.value)
  {
  }

  lemma OneRestorable(commits: seq<Map>, log: seq<Mutation>, from: nat, i: nat)
    requires AllRestorable(commits, log, from) && i < |commits|
    ensures AllRestorable(commits[..i + 1], log, from) && Restorable(commits[i], log, from)
  {
  }

  /** A commit of the longer log is one of the shorter if it does not reach past it. */
  lemma RestorableShorter(commit: Map, log: seq<Mutation>, more: seq<Mutation>, from: nat)
    requires Restorable(commit, log + more, from) && OpenOf(commit).value.applied <= |log|
    ensures AllRestorable([commit], log, from)
  {
    var s := OpenOf(commit).value;
    assert (log + more)[..s.applied] == log[..s.applied];
  }

  /** A phase in which something lies on disk. */
  ghost predicate Disk(cfg: Config, n: Node, more: seq<Mutation>, tail: bytes) {
    && OnDisk(cfg, n, FilesOf(n.phase), FlushedOf(n.phase), more, tail)
    && AllRestorable(CommitsOf(n.phase), InAll(cfg, n, more, tail), Oldest(FilesOf(n.phase)))
  }

  lemma NodeOnDisk(cfg: Config, n: Node) returns (more: seq<Mutation>, tail: bytes)
    requires Invariant(cfg, n)
    ensures Disk(cfg, n, more, tail) && AllEncodable(more)
  {
    hide HoldsLog, InAll, AllRestorable, RunningHolds, EndOf;
    if n.phase.Down? {
      more, tail :| DownHolds(cfg, n, more, tail);
    } else if n.phase.Replayed? {
      more, tail :| ReplayedHolds(cfg, n, more, tail);
    } else {
      tail :| RunningHolds(cfg, n, tail);
      more := RunningIsOnDisk(cfg, n, tail);
    }
  }

  /**
   After a power loss the log is what was kept, and the restored commit is part of it
   exactly if it does not reach past it.
   */
  lemma LossKeeps(cfg: Config, n: Node, more: seq<Mutation>, tail: bytes, cuts: seq<nat>, restored: nat)
    returns (rest: seq<Mutation>, torn: bytes)
    requires Honest(n.trace) && Disk(cfg, n, more, tail) && restored < |CommitsOf(n.phase)|
    ensures var next := CrashStep(cfg, n, cuts, restored);
            && next.phase.Down? && next.phase.commits == [CommitsOf(n.phase)[restored]] && next.caught.None?
            && OpenOf(next.phase.commits[0]).Ok? && Honest(next.trace) && Flatten(n.trace) <= Flatten(next.trace)
            && OnDisk(cfg, next, next.phase.files, next.phase.flushed, rest, torn)
            && InAll(cfg, next, rest, torn) == Flatten(next.trace)
            && (!LosesReplayed(cfg, n, cuts, restored) ==> DownHolds(cfg, next, rest, torn))
  {
    hide HoldsLog, EncodeAll, Flatten, Whole, OpenOf, Holds, AfterLoss, Beyond, Quiet, FilesOf, FlushedOf, CommitsOf;
    var files := FilesOf(n.phase);
    var k;
    k, rest, torn := LossSettles(cfg, n, files, FlushedOf(n.phase), more, tail, cuts);
    var next := CrashStep(cfg, n, cuts, restored);
    var commit := CommitsOf(n.phase)[restored];
    OneRestorable(CommitsOf(n.phase), InAll(cfg, n, more, tail), Oldest(files), restored);
    PrefixRest(Flatten(n.trace), more, k, Whole(cfg.crc, more, |tail|));
    NothingMore(cfg, next, rest, torn);
    if OpenOf(commit).value.applied <= |Flatten(next.trace)| {
      RestorableShorter(commit, Flatten(next.trace), more[k..Whole(cfg.crc, more, |tail|)], Oldest(files));
    }
  }

  lemma PrefixRest<T>(log: seq<T>, more: seq<T>, k: nat, n: nat)
    requires k <= n <= |more|
    ensures log + more[..n] == (log + more[..k]) + more[k..n]
  {
  }

  lemma NothingMore(cfg: Config, n: Node, more: seq<Mutation>, tail: bytes)
    requires AllEncodable(more) && Whole(cfg.crc, more, |tail|) == 0
    ensures InAll(cfg, n, more, tail) == Flatten(n.trace)
  {
    hide Flatten, Whole;
    assert more[..0] == [];
    NoMutations(Flatten(n.trace));
  }

  /** A power loss that takes nothing already replayed and kept leaves a log that recovers. */
  lemma CrashKeeps(cfg: Config, n: Node, cuts: seq<nat>, restored: nat)
    requires Invariant(cfg, n) && !LosesReplayed(cfg, n, cuts, restored)
    ensures Invariant(cfg, CrashStep(cfg, n, cuts, restored))
    ensures Flatten(n.trace) <= Flatten(CrashStep(cfg, n, cuts, restored).trace)
  {
    hide Flatten, OpenOf, OnDisk, InAll, AllRestorable, CommitsOf, Disk, LosesReplayed;
    if restored < |CommitsOf(n.phase)| {
      var more, tail := NodeOnDisk(cfg, n);
      var rest, torn := LossKeeps(cfg, n, more, tail, cuts, restored);
      DownIsEncodable(cfg, CrashStep(cfg, n, cuts, restored), rest, torn);
    }
  }

  lemma DownIsEncodable(cfg: Config, n: Node, more: seq<Mutation>, tail: bytes)
    requires n.phase.Down? && DownHolds(cfg, n, more, tail)
    ensures AllEncodable(Flatten(n.trace))
  {
  }

  /** A process that merely dies leaves everything it wrote where it was. */
  lemma KillKeeps(cfg: Config, n: Node, restored: nat)
    requires Invariant(cfg, n)
    ensures Invariant(cfg, KillStep(n, restored)) && KillStep(n, restored).trace == n.trace
  {
    hide Flatten, OpenOf, OnDisk, InAll, AllRestorable, RunningHolds, ReplayedHolds, FilesOf, FlushedOf, CommitsOf;
    if restored < |CommitsOf(n.phase)| {
      var more, tail := NodeOnDisk(cfg, n);
      var next := KillStep(n, restored);
      OneRestorable(CommitsOf(n.phase), InAll(cfg, n, more, tail), Oldest(FilesOf(n.phase)), restored);
      SameOnDisk(cfg, n, next, FilesOf(n.phase), FlushedOf(n.phase), more, tail);
      assert DownHolds(cfg, next, more, tail);
    }
  }

  lemma SameOnDisk(cfg: Config, n: Node, next: Node, files: seq<File>, flushed: seq<nat>, more: seq<Mutation>,
                   tail: bytes)
    requires OnDisk(cfg, n, files, flushed, more, tail) && next.trace == n.trace && next.caught == n.caught
    ensures OnDisk(cfg, next, files, flushed, more, tail)
    ensures InAll(cfg, next, more, tail) == InAll(cfg, n, more, tail)
  {
    hide Flatten, EncodeAll, Whole, Quiet, HoldsLog, DiskFlushed;
  }

  // ---- Recovery and reopening ---------------------------------------------------------------

  /** Settling a trace by its files keeps exactly the complete records they hold. */
  lemma SettledIsInAll(cfg: Config, n: Node, files: seq<File>, flushed: seq<nat>, more: seq<Mutation>, tail: bytes)
    requires Honest(n.trace) && OnDisk(cfg, n, files, flushed, more, tail)
    ensures var next := Settled(cfg.crc, n, files);
            && Flatten(next) == InAll(cfg, n, more, tail) && Honest(next) && AllEncodable(Flatten(next))
            && |Flatten(next)| <= Total(n.trace)
  {
    hide EncodeAll, Flatten, Whole, Parse, HoldsLog, Quiet;
    var log, k := Flatten(n.trace), Whole(cfg.crc, more, |tail|);
    if files == [] {
      NothingOnDisk(cfg, n, flushed, more, tail);
    } else {
      FrontAndLast(files);
      ActiveHolds(cfg.crc, Front(files), Last(files).first, Last(files).data, log, tail);
      LastSegmentParses(cfg.crc, log, more, tail, Last(files).first);
    }
    NoneOfCaught(cfg, n, files, flushed, more, tail);
    SettlingKeeps(cfg, n, more, k);
    FlattenFits(Keep(n.trace, n.caught, k));
    assert AllEncodable(log + more[..k]);
  }

  lemma NothingOnDisk(cfg: Config, n: Node, flushed: seq<nat>, more: seq<Mutation>, tail: bytes)
    requires OnDisk(cfg, n, [], flushed, more, tail)
    ensures tail == [] && Whole(cfg.crc, more, |tail|) == 0 && Flatten(n.trace) == []
  {
    hide EncodeAll, Flatten, Whole;
    EmptyTail(cfg.crc, more);
  }

  lemma NoneOfCaught(cfg: Config, n: Node, files: seq<File>, flushed: seq<nat>, more: seq<Mutation>, tail: bytes)
    requires OnDisk(cfg, n, files, flushed, more, tail)
    ensures n.caught.None? ==> Whole(cfg.crc, more, |tail|) == 0
    ensures n.caught.Some? ==> Quiet(n.trace, n.caught.value) && more == n.trace[n.caught.value].batch
  {
    hide HoldsLog, Flatten, EncodeAll, Whole, Quiet;
  }

  lemma ApplyMayFail(crc: Crc, files: seq<File>, s: Store, applyOk: bool)
    requires RecoverOf(crc, files, s, true).Ok?
    ensures RecoverOf(crc, files, s, applyOk) == RecoverOf(crc, files, s, true) ||
            RecoverOf(crc, files, s, applyOk) == Err(ApplyFailed)
  {
    hide ApplyTo, ScanFiles;
  }

  /** From any store a crash can restore, recovery rebuilds the store of all the files hold. */
  lemma RecoversLog(cfg: Config, n: Node, files: seq<File>, flushed: seq<nat>, more: seq<Mutation>, tail: bytes,
                    s: Store)
    requires OnDisk(cfg, n, files, flushed, more, tail) && |InAll(cfg, n, more, tail)| <= I64_MAX
    requires var all := InAll(cfg, n, more, tail); Oldest(files) <= s.applied <= |all| && Holds(s, all[..s.applied])
    ensures AllEncodable(InAll(cfg, n, more, tail))
    ensures var all := InAll(cfg, n, more, tail);
            var r := RecoverOf(cfg.crc, files, s, true);
            && r.Ok? && Holds(r.value.0, all) && r.value.1 == EndOf(cfg.crc, files, all)
            && (s.applied == |all| ==> r.value.0 == s)
  {
    hide RecoverOf, EncodeAll, Whole, Holds, HoldsLog, Flatten;
    RecoveryCompletes(cfg.crc, files, Flatten(n.trace), more, tail, s);
  }

  lemma RecoverWithKeeps(cfg: Config, n: Node, files: seq<File>, flushed: seq<nat>, more: seq<Mutation>, tail: bytes,
                         s: Store, commits: seq<Map>, applyOk: bool)
    requires Invariant(cfg, n) && OnDisk(cfg, n, files, flushed, more, tail) && Total(n.trace) <= I64_MAX
    requires AllRestorable(commits, InAll(cfg, n, more, tail), Oldest(files))
    requires var all := InAll(cfg, n, more, tail); Oldest(files) <= s.applied <= |all| && Holds(s, all[..s.applied])
    ensures var next := RecoverWith(cfg, n, files, flushed, s, commits, applyOk);
            && Invariant(cfg, next) && next.trace == n.trace && next.caught == n.caught
            && (applyOk ==> next.phase.Replayed? && ReplayedHolds(cfg, next, more, tail) && next.phase.files == files)
            && (applyOk && s.applied == |InAll(cfg, n, more, tail)| ==>
                  next.phase == Replayed(files, flushed, s, commits, EndOf(cfg.crc, files, InAll(cfg, n, more, tail))))
  {
    hide RecoverOf, Holds, HoldsLog, DiskFlushed, EncodeAll, Quiet, AllRestorable, Flatten, EndOf, RunningHolds, InAll,
      Whole, DownHolds;
    var all := InAll(cfg, n, more, tail);
    SettledIsInAll(cfg, n, files, flushed, more, tail);
    RecoversLog(cfg, n, files, flushed, more, tail, s);
    ApplyMayFail(cfg.crc, files, s, applyOk);
    var recovered := RecoverOf(cfg.crc, files, s, true).value.0;
    CommitIsRestorable(commits, recovered, all, Oldest(files));
    var next := RecoverWith(cfg, n, files, flushed, s, commits, applyOk);
    SameOnDisk(cfg, n, next, files, flushed, more, tail);
    if next.phase.Replayed? && next != n {
      assert ReplayedHolds(cfg, next, more, tail);
    }
  }

  /** Recovery never refuses the log, and completes whenever the backend accepts its batch. */
  lemma RecoverKeeps(cfg: Config, n: Node, applyOk: bool)
    requires Invariant(cfg, n) && Total(n.trace) <= I64_MAX
    ensures var next := RecoverStep(cfg, n, applyOk);
            && Invariant(cfg, next) && next.trace == n.trace && next.caught == n.caught
            && (applyOk && (n.phase.Down? || n.phase.Replayed?) ==>
                  && next.phase.Replayed? && FilesOf(next.phase) == FilesOf(n.phase)
                  && Holds(next.phase.store, Flatten(Settled(cfg.crc, n, FilesOf(n.phase)))))
  {
    hide RecoverOf, Holds, HoldsLog, DiskFlushed, EncodeAll, Quiet, Whole, Flatten, EndOf, RunningHolds, RecoverWith,
      OpenOf, InAll, Settled;
    if n.phase.Down? {
      var Down(files, flushed, commits) := n.phase;
      var more, tail :| DownHolds(cfg, n, more, tail);
      var all := InAll(cfg, n, more, tail);
      assert Restorable(Last(commits), all, Oldest(files));
      RecoverWithKeeps(cfg, n, files, flushed, more, tail, OpenOf(Last(commits)).value, commits, applyOk);
      SettledIsInAll(cfg, n, files, flushed, more, tail);
      ReplayedStore(cfg, n, RecoverStep(cfg, n, applyOk), more, tail);
    } else if n.phase.Replayed? {
      var Replayed(files, flushed, s, commits, _) := n.phase;
      var more, tail :| ReplayedHolds(cfg, n, more, tail);
      var all := InAll(cfg, n, more, tail);
      assert Restorable(commits[0], all, Oldest(files));
      HoldsPosition(s, all);
      assert all[..s.applied] == all;
      RecoverWithKeeps(cfg, n, files, flushed, more, tail, s, commits, applyOk);
      SettledIsInAll(cfg, n, files, flushed, more, tail);
      ReplayedStore(cfg, n, RecoverStep(cfg, n, applyOk), more, tail);
    }
  }

  lemma ReplayedStore(cfg: Config, n: Node, next: Node, more: seq<Mutation>, tail: bytes)
    requires AllEncodable(more) && next.trace == n.trace
    ensures next.phase.Replayed? && ReplayedHolds(cfg, next, more, tail) ==>
            Holds(next.phase.store, InAll(cfg, n, more, tail))
  {
    hide Holds, OnDisk, Flatten, EndOf, Whole;
  }

  /** Reopening settles the log as the files hold it, discards what lies past it, and only that. */
  lemma ReopenKeeps(cfg: Config, n: Node, end: Truncation)
    requires Invariant(cfg, n)
    ensures var next := ReopenStep(cfg, n, end);
            && Invariant(cfg, next) && Flatten(n.trace) <= Flatten(next.trace)
            && (n.phase.Replayed? && end.Complete? ==>
                  next.phase.Running? && next.trace == Settled(cfg.crc, n, FilesOf(n.phase)))
  {
    hide Holds, Flatten, EncodeAll, OpenOf, Whole, AllRestorable, HoldsLog, Settled, Quiet, InAll, DiskFlushed, EndOf;
    if n.phase.Replayed? {
      var files := n.phase.files;
      var more, tail :| ReplayedHolds(cfg, n, more, tail);
      SettledIsInAll(cfg, n, files, n.phase.flushed, more, tail);
      AllHoldsLog(cfg, n, more, tail);
      if end.Complete? {
        if files == [] {
          ReopensEmpty(cfg, n, more, tail);
        } else {
          ReopensLast(cfg, n, more, tail);
        }
      } else if end.Unflushed? && files != [] {
        CutsLast(cfg, n, more, tail);
      }
    }
  }

  lemma AllHoldsLog(cfg: Config, n: Node, more: seq<Mutation>, tail: bytes)
    requires AllEncodable(more)
    ensures Flatten(n.trace) <= InAll(cfg, n, more, tail)
  {
    hide Flatten, Whole;
  }

  lemma ReopensEmpty(cfg: Config, n: Node, more: seq<Mutation>, tail: bytes)
    requires n.phase.Replayed? && ReplayedHolds(cfg, n, more, tail) && n.phase.files == [] && Honest(n.trace)
    ensures var next := ReopenStep(cfg, n, Complete);
            Invariant(cfg, next) && next.phase.Running? && next.trace == Settled(cfg.crc, n, [])
  {
    hide Holds, Flatten, EncodeAll, OpenOf, Whole, AllRestorable, Beyond;
    NothingOnDisk(cfg, n, n.phase.flushed, more, tail);
    SettledIsInAll(cfg, n, [], n.phase.flushed, more, tail);
    NothingMore(cfg, n, more, tail);
    NothingEncodes(cfg.crc);
    var next := ReopenStep(cfg, n, Complete);
    assert next.phase.m.Files() == [File(0, [])];
    RestorableFromStart(n.phase.commits, [], 0);
    assert RunningHolds(cfg, next, []);
  }

  lemma RestorableFromStart(commits: seq<Map>, log: seq<Mutation>, from: nat)
    requires AllRestorable(commits, log, from)
    ensures AllRestorable(commits, log, 0)
  {
    forall i | 0 <= i < |commits| ensures Restorable(commits[i], log, 0) {
      assert Restorable(commits[i], log, from);
    }
  }

  /** The files with the last cut to its complete records hold exactly all of the log. */
  lemma CutHoldsAll(crc: Crc, sealed: seq<File>, first: nat, data: bytes, log: seq<Mutation>, more: seq<Mutation>,
                    tail: bytes)
    requires AllEncodable(log) && AllEncodable(more) && tail <= EncodeAll(crc, more) && first <= |log|
    requires HoldsLog(crc, Listing(sealed, first, data), log, tail)
    ensures var k := Whole(crc, more, |tail|);
            var all := log + more[..k];
            && AllEncodable(all) && EncodeAll(crc, more[..k]) <= tail && tail <= EncodeAll(crc, more)
            && EncodeAll(crc, all[first..]) == EncodeAll(crc, log[first..]) + EncodeAll(crc, more[..k]) <= data
            && HoldsLog(crc, Listing(sealed, first, EncodeAll(crc, all[first..])), all, [])
            && HoldsLog(crc, Listing(sealed, first, EncodeAll(crc, all[first..])), log, EncodeAll(crc, more[..k]))
            && Whole(crc, more, |EncodeAll(crc, more[..k])|) == k
  {
    hide EncodeAll, Whole, Parse, HoldsLog;
    var k := Whole(crc, more, |tail|);
    var all, whole := log + more[..k], EncodeAll(crc, log[first..]);
    ActiveHolds(crc, sealed, first, data, log, tail);
    var torn := LeftJoins(crc, sealed, first, log, more, tail);
    ActiveHolds(crc, sealed, first, data, all, torn);
    assert all[first..] == log[first..] + more[..k];
    EncodeConcat(crc, log[first..], more[..k]);
    LogThenCutParses(crc, [], more, tail);
    assert [] + more[..k] == more[..k];
    TailChanges(crc, sealed, first, data, log, tail, EncodeAll(crc, more[..k]));
    WholeOfWhole(crc, more, k);
  }

  lemma WholeOfWhole(crc: Crc, more: seq<Mutation>, k: nat)
    requires AllEncodable(more) && k <= |more|
    ensures AllEncodable(more[..k]) && Whole(crc, more, |EncodeAll(crc, more[..k])|) == k
  {
    hide EncodeAll, Whole;
    assert more == more[..k] + more[k..];
    CutFacts(crc, more[..k], more[k..], []);
    EmptyTail(crc, more[k..]);
  }

  lemma CutTo(data: bytes, b: bytes)
    requires b <= data
    ensures Cut(data, |b|) == b
  {
  }

  lemma ReopensLast(cfg: Config, n: Node, more: seq<Mutation>, tail: bytes)
    requires n.phase.Replayed? && ReplayedHolds(cfg, n, more, tail) && n.phase.files != [] && Honest(n.trace)
    ensures var next := ReopenStep(cfg, n, Complete);
            Invariant(cfg, next) && next.phase.Running? && next.trace == Settled(cfg.crc, n, n.phase.files)
  {
    hide Holds, Flatten, EncodeAll, OpenOf, Whole, HoldsLog, AllRestorable, Quiet, Beyond, Parse;
    var Replayed(files, flushed, s, commits, end) := n.phase;
    var all, log, first := InAll(cfg, n, more, tail), Flatten(n.trace), Last(files).first;
    FrontAndLast(files);
    ActiveHolds(cfg.crc, Front(files), first, Last(files).data, log, tail);
    SettledIsInAll(cfg, n, files, flushed, more, tail);
    CutHoldsAll(cfg.crc, Front(files), first, Last(files).data, log, more, tail);
    CutTo(Last(files).data, EncodeAll(cfg.crc, all[first..]));
    RestorableFromStart(commits, all, Oldest(files));
    var next := ReopenStep(cfg, n, Complete);
    SameOldest(Front(files), first, Last(files).data, EncodeAll(cfg.crc, all[first..]));
    assert RunningHolds(cfg, next, []);
  }

  /** Cutting the last file leaves as much of it flushed as the log needs. */
  lemma CutStaysFlushed(crc: Crc, files: seq<File>, flushed: seq<nat>, log: seq<Mutation>, data: bytes)
    requires AllEncodable(log) && DiskFlushed(crc, files, flushed, log) && files != []
    ensures DiskFlushed(crc, Listing(Front(files), Last(files).first, data), flushed, log)
  {
    hide EncodeAll;
    ListingEnds(Front(files), Last(files).first, data);
  }

  lemma CutStaysUnsettled(crc: Crc, trace: seq<Entry>, caught: Option<nat>, more: seq<Mutation>, tail: bytes)
    requires Unsettled(crc, trace, caught, more, tail)
    ensures AllEncodable(more) && tail <= EncodeAll(crc, more)
    ensures var k := Whole(crc, more, |tail|); Unsettled(crc, trace, caught, more, EncodeAll(crc, more[..k]))
  {
    hide EncodeAll, Whole, Quiet;
    var k := Whole(crc, more, |tail|);
    WholeOfWhole(crc, more, k);
    EncodeConcat(crc, more[..k], more[k..]);
    assert more == more[..k] + more[k..];
  }

  lemma CutsLast(cfg: Config, n: Node, more: seq<Mutation>, tail: bytes)
    requires n.phase.Replayed? && ReplayedHolds(cfg, n, more, tail) && n.phase.files != [] && Invariant(cfg, n)
    ensures var next := ReopenStep(cfg, n, Unflushed); Invariant(cfg, next) && next.trace == n.trace
  {
    hide Holds, Flatten, EncodeAll, OpenOf, Whole, HoldsLog, AllRestorable, Quiet, Beyond, Parse,
      DiskFlushed, Unsettled;
    CutStaysUnsettled(cfg.crc, n.trace, n.caught, more, tail);
    var Replayed(files, flushed, s, commits, end) := n.phase;
    var all, log, first := InAll(cfg, n, more, tail), Flatten(n.trace), Last(files).first;
    FrontAndLast(files);
    ActiveHolds(cfg.crc, Front(files), first, Last(files).data, log, tail);
    SettledIsInAll(cfg, n, files, flushed, more, tail);
    CutHoldsAll(cfg.crc, Front(files), first, Last(files).data, log, more, tail);
    CutTo(Last(files).data, EncodeAll(cfg.crc, all[first..]));
    CutStaysFlushed(cfg.crc, files, flushed, log, EncodeAll(cfg.crc, all[first..]));
    ListingEnds(Front(files), first, EncodeAll(cfg.crc, all[first..]));
    ListingEnds(Front(files), first, Last(files).data);
    var next := ReopenStep(cfg, n, Unflushed);
    SameOldest(Front(files), first, Last(files).data, EncodeAll(cfg.crc, all[first..]));
    assert ReplayedHolds(cfg, next, more, EncodeAll(cfg.crc, more[..Whole(cfg.crc, more, |tail|)]));
  }

  // ---- Whole runs ---------------------------------------------------------------------------

  /** Every prudent step keeps the invariant and only ever adds to the log. */
  lemma StepKeeps(cfg: Config, n: Node, step: Step)
    requires Invariant(cfg, n) && !Imprudent(cfg, n, step)
    requires Total(n.trace) + (if step.Retire? then |step.batch| else 0) <= I64_MAX
    ensures Invariant(cfg, Next(cfg, n, step))
    ensures Flatten(n.trace) <= Flatten(Next(cfg, n, step).trace)
  {
    hide Invariant, Flatten, RetireStep, CheckpointStep, RemoveStep, CrashStep, KillStep, RecoverStep, ReopenStep,
      LosesReplayed, Settled;
    FlattenFits(n.trace);
    match step
    case Retire(batch, fault) => if n.phase.Running? { RetireKeeps(cfg, n, batch, fault); }
    case Checkpoint(ok, visible) => if n.phase.Running? { CheckpointKeeps(cfg, n, ok, visible); }
    case Remove => if n.phase.Running? { RemoveKeeps(cfg, n); }
    case Crash(cuts, restored) => CrashKeeps(cfg, n, cuts, restored);
    case Kill(restored) => KillKeeps(cfg, n, restored);
    case Recover(applyOk) => RecoverKeeps(cfg, n, applyOk);
    case Reopen(end) => ReopenKeeps(cfg, n, end);
  }

  lemma {:induction false} SameBatchesSameTotal(a: seq<Entry>, b: seq<Entry>)
    requires |a| == |b| && forall i :: 0 <= i < |a| ==> a[i].batch == b[i].batch
    ensures Total(a) == Total(b)
  {
    if a != [] {
      SameBatchesSameTotal(Front(a), Front(b));
    }
  }

  lemma KeepingKeepsTotal(trace: seq<Entry>, caught: Option<nat>, kept: nat)
    ensures Total(Keep(trace, caught, kept)) == Total(trace)
  {
    SameBatchesSameTotal(trace, Keep(trace, caught, kept));
  }

  /** A step adds to the trace only the batch it retires. */
  lemma StepAdds(cfg: Config, n: Node, step: Step)
    ensures Total(Next(cfg, n, step).trace) <= Total(n.trace) + if step.Retire? then |step.batch| else 0
  {
    hide Flatten, AllEncodable, EncodeAll, AppendTo, ApplyTo, NameTaken, Drifts, RecoverOf, OpenOf, Beyond, Keep,
      Reopened, AfterLoss;
    var next := Next(cfg, n, step);
    match step
    case Retire(batch, fault) =>
      if next.trace != n.trace {
        OneMoreEntry(n.trace, Last(next.trace));
        assert next.trace == n.trace + [Last(next.trace)];
      }
    case Crash(cuts, _) =>
      KeepingKeepsTotal(n.trace, n.caught,
        Beyond(cfg.crc, AfterLoss(FilesOf(n.phase), FlushedOf(n.phase), cuts), |Flatten(n.trace)|));
    case Reopen(_) =>
      KeepingKeepsTotal(n.trace, n.caught, Beyond(cfg.crc, FilesOf(n.phase), |Flatten(n.trace)|));
    case _ => assert next.trace == n.trace;
  }

  lemma InitiallyHolds(cfg: Config)
    ensures Invariant(cfg, INITIAL)
  {
    EmptyRepresents();
    NothingEncodes(cfg.crc);
    assert EMPTY.backend == map[];
    HoldsReopens(EMPTY, []);
    assert Restorable(map[], [], 0);
    EmptyTail(cfg.crc, []);
    assert InAll(cfg, INITIAL, [], []) == [];
    assert DownHolds(cfg, INITIAL, [], []);
  }

  /** The invariant holds after every prudent run. */
  lemma {:induction false} RunKeeps(cfg: Config, steps: seq<Step>)
    requires Volume(steps) <= I64_MAX && Prudent(cfg, steps)
    ensures Invariant(cfg, Exec(cfg, steps)) && Total(Exec(cfg, steps).trace) <= Volume(steps)
  {
    hide Invariant, Next, Imprudent;
    if steps == [] {
      InitiallyHolds(cfg);
    } else {
      var before := Exec(cfg, Front(steps));
      RunKeeps(cfg, Front(steps));
      StepKeeps(cfg, before, Last(steps));
      StepAdds(cfg, before, Last(steps));
    }
  }

  /** Runs may be taken up where they were left. */
  lemma {:induction false} LongerRuns(cfg: Config, steps: seq<Step>, more: seq<Step>)
    requires Prudent(cfg, steps + more)
    ensures Prudent(cfg, steps) && Volume(steps) <= Volume(steps + more)
  {
    hide Imprudent, Exec;
    if more == [] {
      assert steps + more == steps;
    } else {
      assert Front(steps + more) == steps + Front(more);
      LongerRuns(cfg, steps, Front(more));
    }
  }

  /**
   The log only ever grows: nothing that was ever acknowledged is lost, reordered or
   given another revision by anything that happens later.
   */
  lemma {:induction false} LogOnlyGrows(cfg: Config, steps: seq<Step>, more: seq<Step>)
    requires Volume(steps + more) <= I64_MAX && Prudent(cfg, steps + more)
    ensures Flatten(Exec(cfg, steps).trace) <= Flatten(Exec(cfg, steps + more).trace)
  {
    hide Invariant, Next, Flatten, Imprudent;
    if more == [] {
      assert steps + more == steps;
    } else {
      var front := steps + Front(more);
      assert Front(steps + more) == front;
      LogOnlyGrows(cfg, steps, Front(more));
      RunKeeps(cfg, front);
      StepKeeps(cfg, Exec(cfg, front), Last(more));
    }
  }

  /** The log as the files of a phase would settle it. */
  function LogOf(cfg: Config, n: Node): seq<Mutation> {
    if n.phase.Running? then Flatten(n.trace) else Flatten(Settled(cfg.crc, n, FilesOf(n.phase)))
  }

  /**
   Crash safety: after any prudent run the log is never refused, a store that is up holds
   exactly what the trace and the files keep, and one that is down can be recovered and
   reopened to hold exactly that.
   */
  lemma CrashSafety(cfg: Config, steps: seq<Step>)
    requires Volume(steps) <= I64_MAX && Prudent(cfg, steps)
    ensures var n := Exec(cfg, steps);
            var log := LogOf(cfg, n);
            && !n.phase.Refused? && Honest(n.trace) && Flatten(n.trace) <= log && |log| <= I64_MAX
            && (n.phase.Running? ==> Holds(n.phase.m.store, log))
            && (n.phase.Replayed? ==> Holds(n.phase.store, log))
            && (n.phase.Down? || n.phase.Replayed? ==>
                  var up := RecoverStep(cfg, n, true);
                  var open := ReopenStep(cfg, up, Complete);
                  && up.phase.Replayed? && Holds(up.phase.store, log)
                  && open.phase.Running? && Flatten(open.trace) == log)
  {
    hide Flatten, Holds, RecoverStep, ReopenStep, RunningHolds, DownHolds, Settled, OnDisk, EndOf, InAll, AllRestorable;
    var n := Exec(cfg, steps);
    RunKeeps(cfg, steps);
    FlattenFits(n.trace);
    if n.phase.Running? {
      RunningStore(cfg, n);
    } else {
      OnDiskIsLog(cfg, n);
      RecoverKeeps(cfg, n, true);
      ReopenKeeps(cfg, RecoverStep(cfg, n, true), Complete);
      SettledAlike(cfg, n, RecoverStep(cfg, n, true));
    }
  }

  lemma SettledAlike(cfg: Config, n: Node, next: Node)
    requires next.trace == n.trace && next.caught == n.caught && FilesOf(next.phase) == FilesOf(n.phase)
    ensures Settled(cfg.crc, next, FilesOf(next.phase)) == Settled(cfg.crc, n, FilesOf(n.phase))
  {
  }

  lemma RunningStore(cfg: Config, n: Node)
    requires n.phase.Running? && Invariant(cfg, n)
    ensures Holds(n.phase.m.store, Flatten(n.trace))
  {
    hide Flatten, Holds, LogHeld, AllRestorable, CaughtTail;
    var tail :| RunningHolds(cfg, n, tail);
  }

  lemma OnDiskIsLog(cfg: Config, n: Node)
    requires !n.phase.Running? && Invariant(cfg, n) && Total(n.trace) <= I64_MAX
    ensures var log := Flatten(Settled(cfg.crc, n, FilesOf(n.phase)));
            && Flatten(n.trace) <= log && |log| <= Total(n.trace)
            && (n.phase.Replayed? ==> Holds(n.phase.store, log))
  {
    hide Flatten, Holds, Settled, HoldsLog, DiskFlushed, EncodeAll, Quiet, Whole, AllRestorable, EndOf, InAll;
    if n.phase.Down? {
      var more, tail :| DownHolds(cfg, n, more, tail);
      SettledIsInAll(cfg, n, n.phase.files, n.phase.flushed, more, tail);
      AllHoldsLog(cfg, n, more, tail);
    } else {
      var more, tail :| ReplayedHolds(cfg, n, more, tail);
      SettledIsInAll(cfg, n, n.phase.files, n.phase.flushed, more, tail);
      AllHoldsLog(cfg, n, more, tail);
    }
  }

  // ---- Losing what was replayed --------------------------------------------------------------

  /**
   A power loss at any point of a prudent run leaves a log that recovery accepts, and then
   recovers whole, if and only if it took nothing that the backend state it restored had
   already replayed; otherwise recovery refuses the log.
   */
  lemma PowerLossIsExact(cfg: Config, steps: seq<Step>, cuts: seq<nat>, restored: nat)
    requires Volume(steps) <= I64_MAX && Prudent(cfg, steps)
    requires restored < |CommitsOf(Exec(cfg, steps).phase)|
    ensures var n := Exec(cfg, steps);
            var down := CrashStep(cfg, n, cuts, restored);
            var up := RecoverStep(cfg, down, true);
            && (LosesReplayed(cfg, n, cuts, restored) ==> up.phase.Refused?)
            && (!LosesReplayed(cfg, n, cuts, restored) ==>
               up.phase.Replayed? && Holds(up.phase.store, Flatten(down.trace)))
  {
    hide Flatten, Holds, Settled, OnDisk, EndOf, InAll, AllRestorable, CrashStep, RecoverOf, OpenOf, DownHolds, Disk,
      Prudent;
    var n := Exec(cfg, steps);
    RunKeeps(cfg, steps);
    var down := CrashStep(cfg, n, cuts, restored);
    var more, tail := NodeOnDisk(cfg, n);
    var rest, torn := LossKeeps(cfg, n, more, tail, cuts, restored);
    if LosesReplayed(cfg, n, cuts, restored) {
      AheadIsRefused(cfg, down, rest, torn);
    } else {
      CrashKeeps(cfg, n, cuts, restored);
      StepAdds(cfg, n, Step.Crash(cuts, restored));
      RecoverKeeps(cfg, down, true);
      LossHasSettled(cfg, down);
    }
  }

  lemma AheadIsRefused(cfg: Config, n: Node, more: seq<Mutation>, tail: bytes)
    requires n.phase.Down? && |n.phase.commits| == 1 && OpenOf(n.phase.commits[0]).Ok? && n.caught.None?
    requires OnDisk(cfg, n, n.phase.files, n.phase.flushed, more, tail)
    requires OpenOf(n.phase.commits[0]).value.applied > |Flatten(n.trace)|
    ensures RecoverStep(cfg, n, true).phase.Refused?
  {
    hide Flatten, HoldsLog, EncodeAll, Whole, OpenOf, RecoverOf;
    StoreAheadIsRefused(cfg.crc, n.phase.files, Flatten(n.trace), more, tail, OpenOf(n.phase.commits[0]).value, true);
  }

  lemma LossHasSettled(cfg: Config, n: Node)
    requires n.caught.None?
    ensures Settled(cfg.crc, n, FilesOf(n.phase)) == n.trace
  {
  }

  /** A running log's commits, and those of one with nothing unsettled, do not reach past it. */
  lemma CommitsAreBehind(cfg: Config, n: Node, restored: nat)
    requires Invariant(cfg, n) && restored < |CommitsOf(n.phase)| && (n.phase.Running? || n.caught.None?)
    ensures OpenOf(CommitsOf(n.phase)[restored]).Ok?
    ensures OpenOf(CommitsOf(n.phase)[restored]).value.applied <= |Flatten(n.trace)|
  {
    hide Flatten, Holds, EndOf, OpenOf, DownHolds, Whole, HoldsLog, DiskFlushed, EncodeAll, Quiet, LogHeld, CaughtTail;
    if n.phase.Running? {
      var held :| RunningHolds(cfg, n, held);
      assert Restorable(n.phase.m.commits[restored], Flatten(n.trace), Oldest(n.phase.m.Files()));
    } else {
      var more, tail := NodeOnDisk(cfg, n);
      NothingMore(cfg, n, more, tail);
      assert Restorable(CommitsOf(n.phase)[restored], InAll(cfg, n, more, tail), Oldest(FilesOf(n.phase)));
    }
  }

  /** Only bytes left by a dead process and replayed before a reopen can be lost so. */
  lemma OnlyUnsettledIsAtRisk(cfg: Config, steps: seq<Step>, cuts: seq<nat>, restored: nat)
    requires Volume(steps) <= I64_MAX && Prudent(cfg, steps)
    ensures var n := Exec(cfg, steps);
            LosesReplayed(cfg, n, cuts, restored) ==> n.caught.Some? && !n.phase.Running?
  {
    hide Flatten, CrashStep, OpenOf, Prudent, Invariant, Disk;
    var n := Exec(cfg, steps);
    RunKeeps(cfg, steps);
    if restored < |CommitsOf(n.phase)| && (n.phase.Running? || n.caught.None?) {
      CommitsAreBehind(cfg, n, restored);
      CrashAdds(cfg, n, cuts, restored);
    }
  }

  lemma CrashAdds(cfg: Config, n: Node, cuts: seq<nat>, restored: nat)
    requires Invariant(cfg, n) && restored < |CommitsOf(n.phase)|
    ensures |Flatten(n.trace)| <= |Flatten(CrashStep(cfg, n, cuts, restored).trace)|
  {
    hide Flatten, CrashStep, OpenOf, Disk, LosesReplayed, OnDisk, InAll, DownHolds;
    var more, tail := NodeOnDisk(cfg, n);
    var rest, torn := LossKeeps(cfg, n, more, tail, cuts, restored);
  }
}
