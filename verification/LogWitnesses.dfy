/** Runs that show where the guarantees end, and that what they allow does happen. */
module LogWitnesses {
  import opened Wrappers
  import opened Sequences
  import opened Revisions
  import opened Mutations
  import opened LogRecords
  import opened Segments
  import opened Recovery
  import opened Stores
  import opened LogStores
  import opened LogMachine
  import opened LogRuns
  import opened LogGuarantees
  import opened LogDrift

  // ---- Writing on after a failed flush -----------------------------------------------------------

  /** A started log, then one batch whose flush fails, then another that succeeds. */
  function ImprudentRun(x: Mutation, y: Mutation): seq<Step> {
    STARTED + [Step.Retire([x], RetireFault.AppendFault(FlushFails))] +
    [Step.Retire([y], RetireFault.AppendFault(NoFault))]
  }

  const STARTED: seq<Step> := [Step.Recover(true), Step.Reopen(Complete)]

  function Empty(cfg: Config): Machine {
    Machine([], [], 0, SegmentState([], 0, 0, cfg.limit, false), EMPTY, [map[]])
  }

  lemma Starting(cfg: Config)
    ensures Exec(cfg, STARTED) == Node(Running(Empty(cfg), 0, false), [], None)
  {
    OneMoreStep(cfg, [], Step.Recover(true));
    OneMoreStep(cfg, [Step.Recover(true)], Step.Reopen(Complete));
    assert [] + [Step.Recover(true)] == [Step.Recover(true)];
    assert [Step.Recover(true)] + [Step.Reopen(Complete)] == STARTED;
    EmptyOpens();
    assert ScanFiles(cfg.crc, [], 0, 0) == Ok(Progress(0, [], None));
  }

  lemma EmptyOpens()
    ensures OpenOf(map[]) == Ok(EMPTY)
  {
    HoldsReopens(EMPTY, []);
    assert EMPTY.backend == map[];
  }

  /** The run after both writes: the second was acknowledged at the first one's revision. */
  lemma ImprudentlyWritten(cfg: Config, x: Mutation, y: Mutation)
    requires Encodable(x) && Encodable(y) && |EncodeAll(cfg.crc, [x])| < cfg.limit
    ensures var n := Exec(cfg, ImprudentRun(x, y));
            && n.phase.Running? && n.phase.m.first == 0 && n.phase.m.sealed == [] && n.phase.m.flushed == []
            && n.phase.m.commits != []
            && n.phase.m.active.data == EncodeAll(cfg.crc, [x, y]) && n.phase.m.active.synced == |n.phase.m.active.data|
            && n.trace == [Entry([x], false, true, 0), Entry([y], true, false, 1)] && n.caught == Some(0)
  {
    hide EncodeAll, Exec, RetireStep, ApplyTo, AllEncodable;
    var first, second := RetireFault.AppendFault(FlushFails), RetireFault.AppendFault(NoFault);
    Starting(cfg);
    BothEncodable(x, y);
    SomethingEncodes(cfg.crc, [x]);
    EncodeConcat(cfg.crc, [x], [y]);
    assert [x] + [y] == [x, y];
    OneMoreStep(cfg, STARTED, Step.Retire([x], first));
    OneMoreStep(cfg, STARTED + [Step.Retire([x], first)], Step.Retire([y], second));
    FailedStep(cfg, Exec(cfg, STARTED), [x], first);
    AcknowledgedStep(cfg, Exec(cfg, STARTED + [Step.Retire([x], first)]), [y], second);
  }

  lemma BothEncodable(x: Mutation, y: Mutation)
    requires Encodable(x) && Encodable(y)
    ensures AllEncodable([x]) && AllEncodable([y]) && AllEncodable([x, y])
  {
  }

  /**
   Without prudence the log does not only grow: writing on after a failed flush, then
   crashing, puts the lost batch before the acknowledged one and takes its revision.
   */
  lemma ImprudenceRenumbers(cfg: Config, x: Mutation, y: Mutation)
    requires Encodable(x) && Encodable(y) && x != y && |EncodeAll(cfg.crc, [x])| < cfg.limit
    ensures var run := ImprudentRun(x, y);
            && Flatten(Exec(cfg, run).trace) == [y]
            && Flatten(Exec(cfg, run + [Step.Crash([], 0)]).trace) == [x, y]
            && !Prudent(cfg, run)
  {
    hide EncodeAll, Exec, Parse, Flatten, Prudent;
    var run := ImprudentRun(x, y);
    ImprudentlyWritten(cfg, x, y);
    BothEncodable(x, y);
    OneMoreStep(cfg, run, Step.Crash([], 0));
    WholeLogParses(cfg.crc, [x, y]);
    TwoKept(x, y);
    CrashKeepsBoth(cfg, Exec(cfg, run), x, y);
    NotPrudent(cfg, x, y);
  }

  lemma TwoKept(x: Mutation, y: Mutation)
    ensures Flatten([Entry([x], false, true, 0), Entry([y], true, false, 1)]) == [y]
    ensures Flatten([Entry([x], false, true, 1), Entry([y], true, false, 1)]) == [x, y]
  {
    hide Flatten;
    FlattenTwo(Entry([x], false, true, 0), Entry([y], true, false, 1));
    FlattenTwo(Entry([x], false, true, 1), Entry([y], true, false, 1));
    assert [] + [y] == [y] && [x] + [y] == [x, y];
  }

  lemma CrashKeepsBoth(cfg: Config, n: Node, x: Mutation, y: Mutation)
    requires n.phase.Running? && n.phase.m.first == 0 && n.phase.m.commits != []
    requires n.phase.m.sealed == [] && n.phase.m.flushed == []
    requires n.phase.m.active.synced == |n.phase.m.active.data|
    requires Parse(cfg.crc, n.phase.m.active.data).records == [x, y] && |Flatten(n.trace)| == 1
    requires n.trace == [Entry([x], false, true, 0), Entry([y], true, false, 1)] && n.caught == Some(0)
    ensures Next(cfg, n, Step.Crash([], 0)).trace == [Entry([x], false, true, 1), Entry([y], true, false, 1)]
  {
    hide Parse, Flatten;
    NothingToLose(n.phase.m.Files(), n.phase.m.Flushed(), []);
    assert n.trace[0 := n.trace[0].(kept := 1)] == [Entry([x], false, true, 1), Entry([y], true, false, 1)];
  }

  lemma FlattenTwo(a: Entry, b: Entry)
    ensures Flatten([a, b]) == Kept(a) + Kept(b)
  {
    OneMoreEntry([], a);
    OneMoreEntry([a], b);
    assert [] + [a] == [a] && [a] + [b] == [a, b];
    assert [] + Kept(a) == Kept(a);
  }

  lemma NotPrudent(cfg: Config, x: Mutation, y: Mutation)
    requires Encodable(x) && |EncodeAll(cfg.crc, [x])| < cfg.limit
    ensures !Prudent(cfg, ImprudentRun(x, y))
  {
    hide EncodeAll, Exec, RetireStep, AllEncodable;
    var first := RetireFault.AppendFault(FlushFails);
    var before := STARTED + [Step.Retire([x], first)];
    Starting(cfg);
    BothEncodable(x, x);
    OneMoreStep(cfg, STARTED, Step.Retire([x], first));
    FailedStep(cfg, Exec(cfg, STARTED), [x], first);
    Snoc(before, Step.Retire([y], RetireFault.AppendFault(NoFault)));
    assert ImprudentRun(x, y) == before + [Step.Retire([y], RetireFault.AppendFault(NoFault))];
  }

  // ---- A lost batch that fills its segment ----------------------------------------------------------

  const WRITES := RetireFault.AppendFault(NoFault)
  const LOSES := RetireFault.AppendFault(FlushFails)

  /** A segment limit that a first record stays below and a second reaches. */
  ghost predicate FillsWith(cfg: Config, x: Mutation, y: Mutation) {
    Encodable(x) && Encodable(y) && |EncodeAll(cfg.crc, [x])| < cfg.limit <= |EncodeAll(cfg.crc, [x, y])|
  }

  lemma OneWritten(cfg: Config, x: Mutation)
    requires Encodable(x) && |EncodeAll(cfg.crc, [x])| < cfg.limit
    ensures var n := Exec(cfg, STARTED + [Step.Retire([x], WRITES)]);
            && n.phase.Running? && !n.phase.drifted && n.phase.m.first == 0 && n.phase.m.sealed == []
            && n.phase.m.flushed == []
            && var data := EncodeAll(cfg.crc, [x]);
            && n.phase.m.active == SegmentState(data, |data|, |data|, cfg.limit, false)
            && |n.phase.m.commits| == 2 && Flatten(n.trace) == [x]
            && n.phase.m.store.current.main == n.phase.m.store.applied == 1
    ensures Prudent(cfg, STARTED + [Step.Retire([x], WRITES)]) && Volume(STARTED + [Step.Retire([x], WRITES)]) == 1
  {
    hide EncodeAll, RetireStep, AllEncodable, Next, Exec, Flatten, ApplyTo;
    Starting(cfg);
    StartIsPrudent(cfg);
    BothEncodable(x, x);
    NothingEncodes(cfg.crc);
    OneMoreStep(cfg, STARTED, Step.Retire([x], WRITES));
    Snoc(STARTED, Step.Retire([x], WRITES));
    NextRetires(cfg, Exec(cfg, STARTED), [x], WRITES);
    AcknowledgedStep(cfg, Exec(cfg, STARTED), [x], WRITES);
    ApplyCounts(EMPTY, [x], 1);
    OneMoreEntry([], Entry([x], true, false, 1));
    NothingFlattens();
    assert [] + EncodeAll(cfg.crc, [x]) == EncodeAll(cfg.crc, [x]) && [] + [x] == [x];
    assert [] + [Entry([x], true, false, 1)] == [Entry([x], true, false, 1)];
  }

  /** The second batch is lost and fills the segment; the third is acknowledged in a new one. */
  lemma TwoMoreWritten(cfg: Config, n: Node, x: Mutation, y: Mutation, z: Mutation)
    requires FillsWith(cfg, x, y) && Encodable(z) && n == Exec(cfg, STARTED + [Step.Retire([x], WRITES)])
    ensures n.phase.Running? && HasRoom(n.phase.m, [y]) && Drifts(n.phase.m, [y], LOSES)
    ensures var d := RetireStep(cfg, n, [y], LOSES);
            && d.phase.Running? && Divides(d) && d.phase.m.first == 0 && Acknowledges(cfg, d, [z], WRITES)
            && var a := RetireStep(cfg, d, [z], WRITES);
               && a.phase.Running?
               && a.phase.m.Files() == [File(0, EncodeAll(cfg.crc, [x, y])), File(1, EncodeAll(cfg.crc, [z]))]
               && |CommitsOf(a.phase)| == 3
  {
    hide EncodeAll, RetireStep, AllEncodable, Exec, Flatten, ApplyTo;
    OneWritten(cfg, x);
    BothEncodable(x, y);
    BothEncodable(z, z);
    EncodeConcat(cfg.crc, [x], [y]);
    assert [x] + [y] == [x, y];
    FailedStep(cfg, n, [y], LOSES);
    var d := RetireStep(cfg, n, [y], LOSES);
    AcknowledgedStep(cfg, d, [z], WRITES);
    assert [] + EncodeAll(cfg.crc, [z]) == EncodeAll(cfg.crc, [z]);
  }

  /**
   With the lost batch in a segment of its own, a power loss that restores a state from
   before the acknowledged one leaves it displaced: no log with it in its place is held.
   */
  lemma ImprudenceDisplaces(cfg: Config, x: Mutation, y: Mutation, z: Mutation)
    requires FillsWith(cfg, x, y) && Encodable(z)
    ensures var run := STARTED + [Step.Retire([x], WRITES)] + [Step.Retire([y], LOSES)] + [Step.Retire([z], WRITES)]
                       + [Step.Crash([|EncodeAll(cfg.crc, [x, y])|], 0)] + [Step.Recover(true)];
            !Stands(Exec(cfg, run), [x, z])
  {
    hide EncodeAll, RetireStep, AllEncodable, Exec, Flatten, ApplyTo, Parse, Stands, Acknowledges;
    BothEncodable(x, y);
    var steps, cuts := STARTED + [Step.Retire([x], WRITES)], [|EncodeAll(cfg.crc, [x, y])|];
    var n := Exec(cfg, steps);
    OneWritten(cfg, x);
    TwoMoreWritten(cfg, n, x, y, z);
    var d := RetireStep(cfg, n, [y], LOSES);
    var a := RetireStep(cfg, d, [z], WRITES);
    DriftIsExact(cfg, steps, [y], LOSES, [z], WRITES, cuts, 0);
    WholeLogParses(cfg.crc, [x, y]);
    FirstSurvives(a.phase.m.Files(), a.phase.m.Flushed(), cuts);
    assert [x] + [z] == [x, z];
  }

  lemma FirstSurvives(files: seq<File>, flushed: seq<nat>, cuts: seq<nat>)
    requires |files| == 2 && cuts == [|files[0].data|]
    ensures |AfterLoss(files, flushed, cuts)| == 2 && AfterLoss(files, flushed, cuts)[0] == files[0]
  {
  }

  // ---- A torn write that survives ----------------------------------------------------------------

  function TornRun(batch: seq<Mutation>, landed: nat): seq<Step> {
    STARTED + [Step.Retire(batch, RetireFault.AppendFault(ShortWrite(landed, Unchanged)))]
  }

  lemma TornlyWritten(cfg: Config, batch: seq<Mutation>, landed: nat)
    requires cfg.limit >= 1 && AllEncodable(batch) && 0 < landed <= |EncodeAll(cfg.crc, batch)| && |batch| <= I64_MAX
    ensures var n := Exec(cfg, TornRun(batch, landed));
            && n.phase.Running? && !n.phase.drifted && n.phase.m.first == 0 && n.phase.m.sealed == []
            && n.phase.m.active.data == EncodeAll(cfg.crc, batch)[..landed] && n.phase.m.active.synced == 0
            && n.phase.m.commits == [map[]]
            && n.trace == [Entry(batch, false, true, 0)] && n.caught == Some(0)
    ensures Prudent(cfg, TornRun(batch, landed)) && Volume(TornRun(batch, landed)) == |batch|
  {
    hide EncodeAll, RetireStep, AllEncodable, Next, Exec;
    var fault := RetireFault.AppendFault(ShortWrite(landed, Unchanged));
    Starting(cfg);
    StartIsPrudent(cfg);
    NothingEncodes(cfg.crc);
    OneMoreStep(cfg, STARTED, Step.Retire(batch, fault));
    Snoc(STARTED, Step.Retire(batch, fault));
    NextRetires(cfg, Exec(cfg, STARTED), batch, fault);
    FailedStep(cfg, Exec(cfg, STARTED), batch, fault);
  }

  lemma NextRetires(cfg: Config, n: Node, batch: seq<Mutation>, fault: RetireFault)
    requires n.phase.Running?
    ensures Next(cfg, n, Step.Retire(batch, fault)) == RetireStep(cfg, n, batch, fault)
  {
  }

  lemma StartIsPrudent(cfg: Config)
    ensures Prudent(cfg, STARTED) && Volume(STARTED) == 0
  {
    assert Front(STARTED) == [Step.Recover(true)] && Front(Front(STARTED)) == [];
    assert Prudent(cfg, []) && Prudent(cfg, [Step.Recover(true)]);
    assert Volume([Step.Recover(true)]) == 0;
  }

  /**
   A write that stopped short and could not be rewound, its caller told it failed, is in
   the log after a power loss as far as its records landed whole, in a prudent run.
   */
  lemma TornWriteSurvives(cfg: Config, batch: seq<Mutation>, landed: nat)
    requires cfg.limit >= 1 && AllEncodable(batch) && 0 < landed <= |EncodeAll(cfg.crc, batch)| && |batch| <= I64_MAX
    ensures var run := TornRun(batch, landed);
            && (forall e :: e in Exec(cfg, run).trace ==> !e.acked) && Flatten(Exec(cfg, run).trace) == []
            && Prudent(cfg, run + [Step.Crash([landed], 0)])
            && Flatten(Exec(cfg, run + [Step.Crash([landed], 0)]).trace) == batch[..Whole(cfg.crc, batch, landed)]
  {
    hide EncodeAll, AllEncodable, Exec, Prudent, Volume, CrashStep, Flatten, Whole, LosesReplayed;
    var run := TornRun(batch, landed);
    TornlyWritten(cfg, batch, landed);
    UnacknowledgedIsVisible(cfg, run, [landed], 0);
    OnlyUnsettledIsAtRisk(cfg, run, [landed], 0);
    OneMoreEntry([], Entry(batch, false, true, 0));
    assert [] + [Entry(batch, false, true, 0)] == [Entry(batch, false, true, 0)];
    NothingFlattens();
    NothingEncodes(cfg.crc);
    OneMoreStep(cfg, run, Step.Crash([landed], 0));
    PrudentSnoc(cfg, run, Step.Crash([landed], 0));
    NoBytes(EncodeAll(cfg.crc, batch)[..landed]);
    assert Reach(cfg, Exec(cfg, run), [landed]) == landed;
    assert [] + batch[..Whole(cfg.crc, batch, landed)] == batch[..Whole(cfg.crc, batch, landed)];
  }

  lemma NothingFlattens()
    ensures Flatten([]) == []
  {
  }

  lemma PrudentSnoc(cfg: Config, steps: seq<Step>, step: Step)
    ensures Prudent(cfg, steps + [step]) <==> Prudent(cfg, steps) && !Imprudent(cfg, Exec(cfg, steps), step)
  {
    hide Imprudent, Exec;
    Snoc(steps, step);
  }

  /** A whole write can so appear that was reported to have failed. */
  lemma UnacknowledgedAppears(cfg: Config, x: Mutation)
    requires cfg.limit >= 1 && Encodable(x)
    ensures var run := TornRun([x], |RecordOf(cfg.crc, x)|);
            && Flatten(Exec(cfg, run).trace) == []
            && Flatten(Exec(cfg, run + [Step.Crash([|RecordOf(cfg.crc, x)|], 0)]).trace) == [x]
  {
    hide Exec, Prudent, Flatten, RecordOf;
    assert [x][1..] == [];
    NothingEncodes(cfg.crc);
    FirstRecord(cfg.crc, [x]);
    EmptyTail(cfg.crc, []);
    NoBytes(RecordOf(cfg.crc, x));
    assert Whole(cfg.crc, [x], |RecordOf(cfg.crc, x)|) == 1;
    TornWriteSurvives(cfg, [x], |RecordOf(cfg.crc, x)|);
    assert [x][..1] == [x];
  }

  // ---- A power loss during the recovery from a process death ----------------------------------------

  /** A flush fails, the process dies, and recovery replays what the flush left in the file. */
  function RevivedRun(x: Mutation): seq<Step> {
    STARTED + [Step.Retire([x], RetireFault.AppendFault(FlushFails))] + [Step.Kill(0)] + [Step.Recover(true)]
  }

  lemma Killed(cfg: Config, x: Mutation)
    requires cfg.limit >= 1 && Encodable(x)
    ensures var steps := STARTED + [Step.Retire([x], RetireFault.AppendFault(FlushFails))] + [Step.Kill(0)];
            && Exec(cfg, steps) ==
               Node(Down([File(0, EncodeAll(cfg.crc, [x]))], [0], [map[]]), [Entry([x], false, true, 0)], Some(0))
            && Prudent(cfg, steps) && Volume(steps) == 1
  {
    hide EncodeAll, RetireStep, AllEncodable, Next, Exec, LosesReplayed, AppendOf, Drifts;
    var fault := RetireFault.AppendFault(FlushFails);
    var retire, written := Step.Retire([x], fault), STARTED + [Step.Retire([x], fault)];
    Starting(cfg);
    StartIsPrudent(cfg);
    BothEncodable(x, x);
    SomethingEncodes(cfg.crc, [x]);
    OneMoreStep(cfg, STARTED, retire);
    Snoc(STARTED, retire);
    NextRetires(cfg, Exec(cfg, STARTED), [x], fault);
    FlushFailed(cfg, x);
    OneMoreStep(cfg, written, Step.Kill(0));
    Snoc(written, Step.Kill(0));
    NextKills(cfg, Exec(cfg, written));
  }

  lemma FlushFailed(cfg: Config, x: Mutation)
    requires cfg.limit >= 1 && Encodable(x)
    ensures var start := Node(Running(Empty(cfg), 0, false), [], None);
            var n := RetireStep(cfg, start, [x], RetireFault.AppendFault(FlushFails));
            && n.phase.Running? && n.phase.m.Files() == [File(0, EncodeAll(cfg.crc, [x]))] && n.phase.m.Flushed() == [0]
            && n.phase.m.commits == [map[]] && n.trace == [Entry([x], false, true, 0)] && n.caught == Some(0)
  {
    hide EncodeAll, RetireStep;
    BothEncodable(x, x);
    SomethingEncodes(cfg.crc, [x]);
    FailedStep(cfg, Node(Running(Empty(cfg), 0, false), [], None), [x], RetireFault.AppendFault(FlushFails));
    assert [] + EncodeAll(cfg.crc, [x]) == EncodeAll(cfg.crc, [x]);
  }

  lemma NextKills(cfg: Config, n: Node)
    requires |CommitsOf(n.phase)| == 1
    ensures Next(cfg, n, Step.Kill(0)) == n.(phase := Down(FilesOf(n.phase), FlushedOf(n.phase), CommitsOf(n.phase)))
  {
    assert CommitsOf(n.phase)[..1] == CommitsOf(n.phase);
  }

  lemma Revived(cfg: Config, x: Mutation)
    requires cfg.limit >= 1 && Encodable(x)
    ensures var n := Exec(cfg, RevivedRun(x));
            && n.phase.Replayed? && n.phase.files == [File(0, EncodeAll(cfg.crc, [x]))] && n.phase.flushed == [0]
            && |n.phase.commits| == 2 && OpenOf(n.phase.commits[1]).Ok? && OpenOf(n.phase.commits[1]).value.applied == 1
            && n.trace == [Entry([x], false, true, 0)] && n.caught == Some(0)
    ensures Prudent(cfg, RevivedRun(x)) && Volume(RevivedRun(x)) == 1
  {
    hide EncodeAll, AllEncodable, Exec, RecoverOf, OpenOf, Holds, Whole;
    var steps := STARTED + [Step.Retire([x], RetireFault.AppendFault(FlushFails))] + [Step.Kill(0)];
    Killed(cfg, x);
    OneMoreStep(cfg, steps, Step.Recover(true));
    Snoc(steps, Step.Recover(true));
    EmptyOpens();
    RecoversOne(cfg, x);
  }

  lemma RecoversOne(cfg: Config, x: Mutation)
    requires Encodable(x)
    ensures var r := RecoverOf(cfg.crc, [File(0, EncodeAll(cfg.crc, [x]))], EMPTY, true);
            r.Ok? && r.value.0 != EMPTY && r.value.0.applied == 1 && OpenOf(r.value.0.backend) == Ok(r.value.0)
  {
    hide EncodeAll, RecoverOf, OpenOf, Whole, ApplyTo;
    var files := [File(0, EncodeAll(cfg.crc, [x]))];
    BothEncodable(x, x);
    assert [x][0..] == [x];
    NoBytes(EncodeAll(cfg.crc, [x]));
    assert HoldsLog(cfg.crc, files, [x], []);
    EmptyTail(cfg.crc, []);
    assert [x] + [][..0] == [x] && [x][..0] == [];
    RecoveryCompletes(cfg.crc, files, [x], [], [], EMPTY);
    var s := RecoverOf(cfg.crc, files, EMPTY, true).value.0;
    HoldsPosition(s, [x]);
    EncodableIsStorable([x]);
    HoldsReopens(s, [x]);
  }

  /**
   A power loss that takes bytes a recovery has replayed, while the backend keeps what was
   replayed, leaves a log that is refused; the run up to it is prudent.
   */
  lemma ReplayedCanBeLost(cfg: Config, x: Mutation)
    requires cfg.limit >= 1 && Encodable(x)
    ensures var n := Exec(cfg, RevivedRun(x));
            && Prudent(cfg, RevivedRun(x)) && LosesReplayed(cfg, n, [], 1)
            && RecoverStep(cfg, CrashStep(cfg, n, [], 1), true).phase.Refused?
  {
    hide EncodeAll, Exec, Prudent, Volume, OpenOf, RecoverStep;
    Revived(cfg, x);
    var n := Exec(cfg, RevivedRun(x));
    OneMoreEntry([], Entry([x], false, true, 0));
    NothingFlattens();
    assert [] + [Entry([x], false, true, 0)] == [Entry([x], false, true, 0)];
    assert AfterLoss(n.phase.files, n.phase.flushed, []) == [File(0, [])];
    assert n.trace[0 := n.trace[0].(kept := 0)] == n.trace;
    assert CrashStep(cfg, n, [], 1).trace == n.trace;
    PowerLossIsExact(cfg, RevivedRun(x), [], 1);
  }
}
