/**
 The log and its store over whole runs: retiring batches, rolling over, torn writes,
 checkpoints, segment removal, crashes, recovery and reopening, as one state machine.
 */
module LogMachine {
  import opened Wrappers
  import opened Sequences
  import opened ByteStrings
  import opened Revisions
  import opened Mutations
  import opened OrderedScan
  import opened Frames
  import opened LogRecords
  import opened Segments
  import opened Recovery
  import opened Stores

  datatype Config = Config(crc: Crc, limit: nat)

  /**
   A running log: sealed segments and how many bytes of each are flushed, the active one
   and where it starts, the store, and the backend states a crash may restore, oldest first.
   */
  datatype Machine =
    Machine(sealed: seq<File>, flushed: seq<nat>, first: nat, active: SegmentState, store: Store, commits: seq<Map>)
  {
    function Files(): seq<File> {
      sealed + [File(first, active.data)]
    }

    function Flushed(): seq<nat> {
      flushed + [active.synced]
    }
  }

  datatype RetireFault = RollFails | AppendFault(append: AppendFault) | ApplyFails

  predicate NameTaken(m: Machine, first: nat) {
    exists f :: f in m.Files() && f.first == first
  }

  /** Seals the active segment and starts an empty one at the store's position. */
  function Rolled(m: Machine): Machine {
    m.(sealed := m.Files(), flushed := m.Flushed(), first := m.store.applied,
       active := SegmentState([], 0, 0, m.active.limit, false))
  }

  predicate HasRoom(m: Machine, batch: seq<Mutation>) {
    && m.store.current.main + |batch| <= I64_MAX
    && m.store.applied + |batch| < U64_END
  }

  /** The running machine after its backend committed a store. */
  function Committed(m: Machine, s: Store): Machine {
    m.(store := s, commits := m.commits + [s.backend])
  }

  /** Writes a batch to the log, flushes it, and applies it; whether the batch was acknowledged. */
  function RetireBatch(crc: Crc, m: Machine, batch: seq<Mutation>, fault: RetireFault): (Machine, bool)
    requires HasRoom(m, batch)
  {
    if !AllEncodable(batch) then (m, false)
    else if m.active.written >= m.active.limit && (fault.RollFails? || NameTaken(m, m.store.applied)) then (m, false)
    else
      var ready := if m.active.written >= m.active.limit then Rolled(m) else m;
      var append := if fault.AppendFault? then fault.append else NoFault;
      var written := ready.(active := AppendTo(ready.active, EncodeAll(crc, batch), append));
      if !AppendOk(ready.active, append) || fault.ApplyFails? then (written, false)
      else (Committed(written, ApplyTo(m.store, batch, m.store.applied + |batch|)), true)
  }

  /** A flush or an apply that failed after the bytes were in the file. */
  predicate Drifts(m: Machine, batch: seq<Mutation>, fault: RetireFault) {
    && AllEncodable(batch)
    && !(m.active.written >= m.active.limit && (fault.RollFails? || NameTaken(m, m.store.applied)))
    && (m.active.written >= m.active.limit || !m.active.poisoned)
    && (fault.ApplyFails? || (fault.AppendFault? && fault.append.FlushFails?))
  }

  // ---- Removing redundant segments -----------------------------------------------------

  /** How many leading segments a durable position makes redundant. */
  function Redundant(files: seq<File>, durable: nat): (n: nat)
    ensures files == [] ==> n == 0
    ensures files != [] ==> n < |files|
  {
    if |files| < 2 || files[1].first > durable then 0
    else 1 + Redundant(files[1..], durable)
  }

  /** Exactly the longest prefix of segments whose successors start at or below the position. */
  lemma {:induction false} RedundantIsLongest(files: seq<File>, durable: nat)
    ensures var n := Redundant(files, durable);
            && (forall i :: 1 <= i <= n ==> files[i].first <= durable)
            && (n + 1 < |files| ==> files[n + 1].first > durable)
  {
    if |files| >= 2 && files[1].first <= durable {
      var rest := files[1..];
      RedundantIsLongest(rest, durable);
      var n := Redundant(rest, durable);
      forall i | 1 <= i <= n + 1 ensures files[i].first <= durable {
        if i > 1 { assert rest[i - 1] == files[i]; }
      }
      assert n + 1 < |rest| ==> rest[n + 1] == files[n + 2];
    }
  }

  // ---- Whole runs ------------------------------------------------------------------------

  /**
   A batch handed to the log: whether its caller was told it succeeded, whether it failed
   with bytes of it left in the file, and how many of its mutations the log has kept.
   */
  datatype Entry = Entry(batch: seq<Mutation>, acked: bool, exposed: bool, kept: nat)

  /** `flushed` is how much of each file no power loss can take. */
  datatype Phase =
    | Down(files: seq<File>, flushed: seq<nat>, commits: seq<Map>)
    | Replayed(files: seq<File>, flushed: seq<nat>, store: Store, commits: seq<Map>, tail: Option<Tail>)
    | Running(m: Machine, durable: nat, drifted: bool)
    | Refused

  /** `caught` is the entry whose bytes may lie in the file beyond the log proper, its fate not yet settled. */
  datatype Node = Node(phase: Phase, trace: seq<Entry>, caught: Option<nat>)

  /** A crash takes the power with it; a kill ends the process and leaves the files as they are. */
  datatype Step =
    | Retire(batch: seq<Mutation>, fault: RetireFault)
    | Checkpoint(ok: bool, visible: bool)
    | Remove
    | Crash(cuts: seq<nat>, restored: nat)
    | Kill(restored: nat)
    | Recover(applyOk: bool)
    | Reopen(end: Truncation)

  function Kept(e: Entry): seq<Mutation> {
    if e.kept < |e.batch| then e.batch[..e.kept] else e.batch
  }

  /** The mutations a run's entries left in the log. */
  function Flatten(trace: seq<Entry>): seq<Mutation> {
    if trace == [] then [] else Flatten(Front(trace)) + Kept(Last(trace))
  }

  function Nth(s: seq<nat>, i: nat): nat {
    if i < |s| then s[i] else 0
  }

  /** The bytes a power loss leaves of a segment: everything flushed, and any prefix of the rest. */
  function SurvivingBytes(data: bytes, flushed: nat, cut: nat): bytes {
    Cut(data, if cut < flushed then flushed else cut)
  }

  function AfterLoss(files: seq<File>, flushed: seq<nat>, cuts: seq<nat>): seq<File> {
    seq(|files|, i requires 0 <= i < |files| =>
      File(files[i].first, SurvivingBytes(files[i].data, Nth(flushed, i), Nth(cuts, i))))
  }

  function Lengths(files: seq<File>): seq<nat> {
    seq(|files|, i requires 0 <= i < |files| => |files[i].data|)
  }

  function RetireStep(cfg: Config, n: Node, batch: seq<Mutation>, fault: RetireFault): Node
    requires n.phase.Running?
  {
    var m := n.phase.m;
    if !HasRoom(m, batch) || batch == [] then n
    else
      var (next, acked) := RetireBatch(cfg.crc, m, batch, fault);
      var before := if |next.sealed| > |m.sealed| then 0 else |m.active.data|;
      var exposed := !acked && |next.active.data| > before;
      Node(Running(next, n.phase.durable, n.phase.drifted || Drifts(m, batch, fault)),
           n.trace + [Entry(batch, acked, exposed, if acked then |batch| else 0)],
           if exposed then Some(|n.trace|) else n.caught)
  }

  function CheckpointStep(n: Node, ok: bool, visible: bool): Node
    requires n.phase.Running?
  {
    var Running(m, durable, drifted) := n.phase;
    if m.store.applied >= U64_END then n
    else
      var s := CheckpointOf(m.store);
      if ok then n.(phase := Running(m.(store := s, commits := [s.backend]), s.applied, drifted))
      else if visible then n.(phase := Running(Committed(m, s), durable, drifted))
      else n
  }

  function RemoveStep(n: Node): Node
    requires n.phase.Running?
  {
    var Running(m, durable, drifted) := n.phase;
    if m.sealed == [] || m.Files()[1].first > durable then n
    else n.(phase := Running(m.(sealed := m.sealed[1..], flushed := Drop(m.flushed, 1)), durable, drifted))
  }

  /** The complete records the last file holds past a log of the given length. */
  function Beyond(crc: Crc, files: seq<File>, length: nat): nat {
    if files == [] then 0
    else
      var n := Last(files).first + |Parse(crc, Last(files).data).records|;
      if n < length then 0 else n - length
  }

  function Keep(trace: seq<Entry>, caught: Option<nat>, kept: nat): seq<Entry> {
    if caught.Some? && caught.value < |trace| then trace[caught.value := trace[caught.value].(kept := kept)] else trace
  }

  /** The trace as the files would settle it: of the caught entry, the complete records they hold are kept. */
  function Settled(crc: Crc, n: Node, files: seq<File>): seq<Entry> {
    Keep(n.trace, n.caught, Beyond(crc, files, |Flatten(n.trace)|))
  }

  function FilesOf(phase: Phase): seq<File> {
    match phase
    case Refused => []
    case Down(files, _, _) => files
    case Replayed(files, _, _, _, _) => files
    case Running(m, _, _) => m.Files()
  }

  function FlushedOf(phase: Phase): seq<nat> {
    match phase
    case Refused => []
    case Down(_, flushed, _) => flushed
    case Replayed(_, flushed, _, _, _) => flushed
    case Running(m, _, _) => m.Flushed()
  }

  function CommitsOf(phase: Phase): seq<Map> {
    match phase
    case Refused => []
    case Down(_, _, commits) => commits
    case Replayed(_, _, _, commits, _) => commits
    case Running(m, _, _) => m.commits
  }

  /** The power goes: the files lose what was not flushed, the backend what was not durable. */
  function CrashStep(cfg: Config, n: Node, cuts: seq<nat>, restored: nat): Node {
    if restored >= |CommitsOf(n.phase)| then n
    else
      var left := AfterLoss(FilesOf(n.phase), FlushedOf(n.phase), cuts);
      Node(Down(left, Lengths(left), [CommitsOf(n.phase)[restored]]), Settled(cfg.crc, n, left), None)
  }

  /** The process dies: it comes back to some commit, and a later power loss to that or an earlier one. */
  function KillStep(n: Node, restored: nat): Node {
    if restored >= |CommitsOf(n.phase)| then n
    else n.(phase := Down(FilesOf(n.phase), FlushedOf(n.phase), CommitsOf(n.phase)[..restored + 1]))
  }

  function RecoverWith(cfg: Config, n: Node, files: seq<File>, flushed: seq<nat>, s: Store, commits: seq<Map>,
                       applyOk: bool): Node {
    match RecoverOf(cfg.crc, files, s, applyOk)
    case Ok((next, tail)) =>
      n.(phase := Replayed(files, flushed, next, if next == s then commits else commits + [next.backend], tail))
    case Err(ApplyFailed) => n
    case Err(_) => n.(phase := Refused)
  }

  function RecoverStep(cfg: Config, n: Node, applyOk: bool): Node {
    match n.phase
    case Down(files, flushed, commits) =>
      if commits == [] then n
      else
        (match OpenOf(Last(commits))
         case Ok(s) => RecoverWith(cfg, n, files, flushed, s, commits, applyOk)
         case Err(_) => n.(phase := Refused))
    case Replayed(files, flushed, s, commits, _) => RecoverWith(cfg, n, files, flushed, s, commits, applyOk)
    case _ => n
  }

  /** Cuts the last file to where recovery found the log to end. */
  function CutLast(files: seq<File>, valid: nat): seq<File>
    requires files != []
  {
    Front(files) + [File(Last(files).first, Cut(Last(files).data, valid))]
  }

  function Reopened(cfg: Config, files: seq<File>, flushed: seq<nat>, s: Store, commits: seq<Map>,
                    tail: Option<Tail>): Machine {
    if tail.None? || files == [] then Machine([], [], 0, SegmentState([], 0, 0, cfg.limit, false), s, commits)
    else
      var data := Cut(Last(files).data, tail.value.valid);
      Machine(Front(files), if flushed == [] then [] else Front(flushed), Last(files).first,
              SegmentState(data, |data|, |data|, cfg.limit, false), s, commits)
  }

  function ReopenStep(cfg: Config, n: Node, end: Truncation): Node {
    match n.phase
    case Replayed(files, flushed, s, commits, tail) =>
      if end.Complete? then
        Node(Running(Reopened(cfg, files, flushed, s, commits, tail), 0, false), Settled(cfg.crc, n, files), None)
      else if end.Unchanged? || tail.None? || files == [] then n
      else n.(phase := Replayed(CutLast(files, tail.value.valid), flushed, s, commits, tail))
    case _ => n
  }

  function Next(cfg: Config, n: Node, step: Step): Node {
    match step
    case Retire(batch, fault) => if n.phase.Running? then RetireStep(cfg, n, batch, fault) else n
    case Checkpoint(ok, visible) => if n.phase.Running? then CheckpointStep(n, ok, visible) else n
    case Remove => if n.phase.Running? then RemoveStep(n) else n
    case Crash(cuts, restored) => CrashStep(cfg, n, cuts, restored)
    case Kill(restored) => KillStep(n, restored)
    case Recover(applyOk) => RecoverStep(cfg, n, applyOk)
    case Reopen(end) => ReopenStep(cfg, n, end)
  }

  const INITIAL := Node(Down([], [], [map[]]), [], None)

  function Exec(cfg: Config, steps: seq<Step>): Node {
    if steps == [] then INITIAL else Next(cfg, Exec(cfg, Front(steps)), Last(steps))
  }

  /** A power loss that takes from the log records the store it restores has already replayed. */
  predicate LosesReplayed(cfg: Config, n: Node, cuts: seq<nat>, restored: nat) {
    && restored < |CommitsOf(n.phase)|
    && OpenOf(CommitsOf(n.phase)[restored]).Ok?
    && OpenOf(CommitsOf(n.phase)[restored]).value.applied > |Flatten(CrashStep(cfg, n, cuts, restored).trace)|
  }

  /** A step after which the log can no longer be relied on. */
  predicate Imprudent(cfg: Config, n: Node, step: Step) {
    match step
    case Retire(_, _) => n.phase.Running? && n.phase.drifted
    case Crash(cuts, restored) => LosesReplayed(cfg, n, cuts, restored)
    case _ => false
  }

  /**
   No batch is retired between a failed flush or apply and the restart that follows it,
   and no power loss takes what a recovery has replayed and the backend has kept.
   */
  predicate Prudent(cfg: Config, steps: seq<Step>) {
    steps != [] ==> Prudent(cfg, Front(steps)) && !Imprudent(cfg, Exec(cfg, Front(steps)), Last(steps))
  }

  /** All the mutations a run hands to the log. */
  function Volume(steps: seq<Step>): nat {
    if steps == [] then 0
    else Volume(Front(steps)) + if Last(steps).Retire? then |Last(steps).batch| else 0
  }
}
