/**
 What each segment of a log was given, kept along a run: every batch its file took, lost to
 its caller or not, and which of it was acknowledged.
 */
module LogLedger {
  import opened Wrappers
  import opened Sequences
  import opened ByteStrings
  import opened Revisions
  import opened Mutations
  import opened OrderedScan
  import opened Frames
  import opened LogRecords
  import opened Segments
  import opened Recovery
  import opened Stores
  import opened LogStores
  import opened LogMachine
  import opened LogShapes
  import opened LogRuns
  import opened LogGuarantees
  import opened LogAftermath

  /**
   One segment: where it was named to begin, the records written to it, those of them
   acknowledged, and how many were flushed when the last of these was.
   */
  datatype Piece = Piece(first: nat, written: seq<Mutation>, acked: seq<Mutation>, mark: nat) {
    function Lost(batch: seq<Mutation>): Piece {
      this.(written := written + batch)
    }

    function Acked(batch: seq<Mutation>): Piece {
      Piece(first, written + batch, acked + batch, |written| + |batch|)
    }

    /** Where the records written to it end, by its name. */
    function End(): nat {
      first + |written|
    }

    /** The position its acknowledged records reach. */
    function Reached(): nat {
      first + |acked|
    }
  }

  datatype Ledger = Ledger(sealed: seq<Piece>, active: Piece) {
    function All(): seq<Piece> {
      sealed + [active]
    }
  }

  /** What an append leaves of a batch: acknowledged, written and lost, or its whole records of a torn write. */
  ghost function Appended(crc: Crc, p: Piece, batch: seq<Mutation>, fault: RetireFault): Piece
    requires AllEncodable(batch)
  {
    match AppendOf(fault)
    case NoFault => if fault.ApplyFails? then p.Lost(batch) else p.Acked(batch)
    case FlushFails => p.Lost(batch)
    case ShortWrite(n, Unchanged) => p.Lost(batch[..Whole(crc, batch, |Cut(EncodeAll(crc, batch), n)|)])
    case ShortWrite(_, _) => p
  }

  ghost function Written(crc: Crc, m: Machine, l: Ledger, batch: seq<Mutation>, fault: RetireFault): Ledger {
    if !Wrote(m, batch, fault) then l
    else
      var ready := if m.active.written >= m.active.limit then Ledger(l.All(), Piece(m.store.applied, [], [], 0)) else l;
      ready.(active := Appended(crc, ready.active, batch, fault))
  }

  ghost function LedgerNext(cfg: Config, n: Node, l: Ledger, step: Step): Ledger
    requires n.phase.Running?
  {
    match step
    case Retire(batch, fault) =>
      if !HasRoom(n.phase.m, batch) || batch == [] then l else Written(cfg.crc, n.phase.m, l, batch, fault)
    case Remove =>
      var Running(m, durable, _) := n.phase;
      if m.sealed == [] || m.Files()[1].first > durable || l.sealed == [] then l else l.(sealed := l.sealed[1..])
    case _ => l
  }

  // ---- Files that hold what the ledger says -----------------------------------------------------

  /** The bytes are the records, and perhaps a beginning of another. */
  ghost predicate Reads(crc: Crc, data: bytes, written: seq<Mutation>) {
    && AllEncodable(written)
    && exists rest :: AllEncodable(rest) && ReadsWith(crc, data, written, rest)
  }

  ghost predicate ReadsWith(crc: Crc, data: bytes, written: seq<Mutation>, rest: seq<Mutation>)
    requires AllEncodable(written) && AllEncodable(rest)
  {
    && AllEncodable(written + rest) && data <= EncodeAll(crc, written + rest)
    && Whole(crc, written + rest, |data|) == |written|
  }

  /** Of the log, the acknowledged records are the part the piece is named for, and are flushed. */
  ghost predicate Placed(crc: Crc, p: Piece, synced: nat, log: seq<Mutation>) {
    && AllEncodable(p.written)
    && p.Reached() <= |log| && log[p.first..p.Reached()] == p.acked
    && |p.acked| <= p.mark <= |p.written|
    && (p.mark == |p.acked| ==> p.written[..p.mark] == p.acked)
    && |EncodeAll(crc, p.written[..p.mark])| <= synced
  }

  ghost predicate SealedPiece(crc: Crc, f: File, synced: nat, p: Piece, log: seq<Mutation>) {
    f.first == p.first && Placed(crc, p, synced, log) && f.data == EncodeAll(crc, p.written)
  }

  ghost predicate ActivePiece(crc: Crc, first: nat, a: SegmentState, p: Piece, log: seq<Mutation>) {
    && first == p.first && Placed(crc, p, a.synced, log) && p.Reached() == |log|
    && ValidSegment(a) && Reads(crc, a.data, p.written)
    && (!a.poisoned ==> a.data == EncodeAll(crc, p.written))
    && (a.poisoned ==> a.written < a.limit || first == |log|)
  }

  /** Each segment begins where the acknowledged records of the one before it end. */
  ghost predicate Chained(pieces: seq<Piece>) {
    forall j :: 0 <= j < |pieces| - 1 ==> pieces[j + 1].first == pieces[j].Reached()
  }

  ghost predicate FilesHold(crc: Crc, m: Machine, l: Ledger, log: seq<Mutation>) {
    && |l.sealed| == |m.sealed| == |m.flushed| && Chained(l.All())
    && (forall j :: 0 <= j < |m.sealed| ==> SealedPiece(crc, m.sealed[j], m.flushed[j], l.sealed[j], log))
    && ActivePiece(crc, m.first, m.active, l.active, log)
  }

  ghost predicate LedgerHolds(cfg: Config, n: Node, l: Ledger) {
    && StoreKeeps(n)
    && FilesHold(cfg.crc, n.phase.m, l, Flatten(n.trace))
    && AllRestorable(n.phase.m.commits, Flatten(n.trace), Oldest(n.phase.m.Files()))
    && AllRestorable(n.phase.m.commits, Flatten(n.trace), n.phase.durable)
  }

  // ---- One append -------------------------------------------------------------------------------------

  lemma ReadsItself(crc: Crc, written: seq<Mutation>)
    requires AllEncodable(written)
    ensures Reads(crc, EncodeAll(crc, written), written)
  {
    hide EncodeAll, Whole;
    NothingEncodes(crc);
    EmptyTail(crc, []);
    CutFacts(crc, written, [], []);
    NoMutations(written);
    NoBytes(EncodeAll(crc, written));
    assert ReadsWith(crc, EncodeAll(crc, written), written, []);
  }

  /** A beginning of a batch's encoding adds its whole records. */
  lemma ReadsTorn(crc: Crc, written: seq<Mutation>, batch: seq<Mutation>, tail: bytes)
    requires AllEncodable(written) && AllEncodable(batch) && tail <= EncodeAll(crc, batch)
    ensures var k := Whole(crc, batch, |tail|);
            Reads(crc, EncodeAll(crc, written) + tail, written + batch[..k])
  {
    hide EncodeAll, Whole;
    CutFacts(crc, written, batch, tail);
    var k := Whole(crc, batch, |tail|);
    assert written + batch[..k] + batch[k..] == written + batch;
    assert ReadsWith(crc, EncodeAll(crc, written) + tail, written + batch[..k], batch[k..]);
  }

  lemma PlacedLost(crc: Crc, p: Piece, synced: nat, log: seq<Mutation>, batch: seq<Mutation>)
    requires Placed(crc, p, synced, log) && AllEncodable(batch)
    ensures Placed(crc, p.Lost(batch), synced, log)
  {
    hide EncodeAll;
    assert p.Lost(batch).written[..p.mark] == p.written[..p.mark];
  }

  lemma PlacedAcked(crc: Crc, p: Piece, synced: nat, log: seq<Mutation>, batch: seq<Mutation>)
    requires Placed(crc, p, synced, log) && AllEncodable(batch) && p.Reached() == |log|
    ensures AllEncodable(p.written + batch)
    ensures Placed(crc, p.Acked(batch), |EncodeAll(crc, p.written + batch)|, log + batch)
  {
    hide EncodeAll;
    var q := p.Acked(batch);
    assert q.written[..q.mark] == p.written + batch;
    assert (log + batch)[q.first..q.Reached()] == log[p.first..] + batch;
    assert p.written[..|p.written|] == p.written;
  }

  /** A longer log leaves every earlier piece as it was. */
  lemma PlacedLonger(crc: Crc, p: Piece, synced: nat, log: seq<Mutation>, batch: seq<Mutation>)
    requires Placed(crc, p, synced, log)
    ensures Placed(crc, p, synced, log + batch)
  {
    hide EncodeAll;
    assert (log + batch)[p.first..p.Reached()] == log[p.first..p.Reached()];
  }

  lemma PlacedFlushed(crc: Crc, p: Piece, synced: nat, more: nat, log: seq<Mutation>)
    requires Placed(crc, p, synced, log) && synced <= more
    ensures Placed(crc, p, more, log)
  {
    hide EncodeAll;
  }

  /** An append that was not acknowledged, however it failed. */
  lemma FailedAppend(crc: Crc, first: nat, a: SegmentState, p: Piece, log: seq<Mutation>, batch: seq<Mutation>,
                     fault: RetireFault)
    requires ActivePiece(crc, first, a, p, log) && !a.poisoned && AllEncodable(batch)
    requires a.written < a.limit || first == |log|
    requires !AppendOf(fault).NoFault? || fault.ApplyFails?
    ensures var next := AppendTo(a, EncodeAll(crc, batch), AppendOf(fault));
            ActivePiece(crc, first, next, Appended(crc, p, batch, fault), log)
  {
    hide EncodeAll, Whole, Placed, Reads;
    var b := EncodeAll(crc, batch);
    var next, q := AppendTo(a, b, AppendOf(fault)), Appended(crc, p, batch, fault);
    PlacedIsEncodable(crc, p, a.synced, log);
    EncodeConcat(crc, p.written, batch);
    ReadsItself(crc, p.written + batch);
    PlacedLost(crc, p, a.synced, log, batch);
    match AppendOf(fault)
    case NoFault => PlacedFlushed(crc, q, a.synced, next.synced, log);
    case FlushFails =>
    case ShortWrite(n, Unchanged) =>
      var k := Whole(crc, batch, |Cut(b, n)|);
      ReadsTorn(crc, p.written, batch, Cut(b, n));
      PlacedLost(crc, p, a.synced, log, batch[..k]);
    case ShortWrite(n, Complete) => PlacedFlushed(crc, p, a.synced, next.synced, log);
    case ShortWrite(n, Unflushed) =>
  }

  lemma PlacedIsEncodable(crc: Crc, p: Piece, synced: nat, log: seq<Mutation>)
    requires Placed(crc, p, synced, log)
    ensures AllEncodable(p.written)
  {
  }

  lemma AckedAppend(crc: Crc, first: nat, a: SegmentState, p: Piece, log: seq<Mutation>, batch: seq<Mutation>)
    requires ActivePiece(crc, first, a, p, log) && !a.poisoned && AllEncodable(batch)
    ensures ActivePiece(crc, first, AppendTo(a, EncodeAll(crc, batch), NoFault), p.Acked(batch), log + batch)
  {
    hide EncodeAll, Whole, Placed, Reads;
    PlacedIsEncodable(crc, p, a.synced, log);
    EncodeConcat(crc, p.written, batch);
    ReadsItself(crc, p.written + batch);
    PlacedAcked(crc, p, a.synced, log, batch);
  }

  // ---- One step ---------------------------------------------------------------------------------------

  /** A new segment is named by the position the log has reached. */
  lemma RollsLedger(crc: Crc, m: Machine, l: Ledger, log: seq<Mutation>)
    requires FilesHold(crc, m, l, log) && !m.active.poisoned && m.store.applied == |log|
    ensures FilesHold(crc, Rolled(m), Ledger(l.All(), Piece(|log|, [], [], 0)), log)
  {
    hide EncodeAll, Reads, Placed;
    var next, q := Rolled(m), Ledger(l.All(), Piece(|log|, [], [], 0));
    NothingEncodes(crc);
    ReadsItself(crc, []);
    assert Placed(crc, q.active, 0, log) by { NothingPlaced(crc, log); }
    PlacedFlushed(crc, l.active, m.active.synced, m.active.synced, log);
    assert Chained(q.All());
  }

  lemma NothingPlaced(crc: Crc, log: seq<Mutation>)
    ensures Placed(crc, Piece(|log|, [], [], 0), 0, log)
  {
    NothingEncodes(crc);
  }

  /** What a batch goes to: not poisoned, with room or new. */
  lemma ReadyLedger(crc: Crc, m: Machine, l: Ledger, log: seq<Mutation>)
    requires FilesHold(crc, m, l, log) && CanWrite(m) && m.store.applied == |log|
    ensures var ready := if m.active.written >= m.active.limit then Ledger(l.All(), Piece(|log|, [], [], 0)) else l;
            var next := ReadyFor(m);
            && FilesHold(crc, next, ready, log) && !next.active.poisoned
            && (next.active.written < next.active.limit || next.first == |log|)
  {
    hide EncodeAll, Reads, Placed, SealedPiece;
    if m.active.written >= m.active.limit {
      assert m.active.poisoned ==> File(m.first, m.active.data) in m.Files();
      RollsLedger(crc, m, l, log);
    }
  }

  lemma ActiveChanges(crc: Crc, m: Machine, l: Ledger, log: seq<Mutation>, a: SegmentState, p: Piece,
                      batch: seq<Mutation>)
    requires FilesHold(crc, m, l, log) && ActivePiece(crc, m.first, a, p, log + batch)
    ensures FilesHold(crc, m.(active := a), l.(active := p), log + batch)
  {
    hide EncodeAll, ActivePiece, Placed;
    var next := l.(active := p);
    assert p.first == l.active.first by { SameFirst(crc, m, l, log, a, p, batch); }
    forall j | 0 <= j < |m.sealed| ensures SealedPiece(crc, m.sealed[j], m.flushed[j], l.sealed[j], log + batch) {
      PlacedLonger(crc, l.sealed[j], m.flushed[j], log, batch);
    }
    forall j | 0 <= j < |next.All()| - 1 ensures next.All()[j + 1].first == next.All()[j].Reached() {
      assert l.All()[j + 1].first == l.All()[j].Reached();
    }
  }

  lemma SameFirst(crc: Crc, m: Machine, l: Ledger, log: seq<Mutation>, a: SegmentState, p: Piece, batch: seq<Mutation>)
    requires FilesHold(crc, m, l, log) && ActivePiece(crc, m.first, a, p, log + batch)
    ensures p.first == l.active.first
  {
  }

  lemma WrittenHolds(cfg: Config, n: Node, l: Ledger, batch: seq<Mutation>, fault: RetireFault)
    requires LedgerHolds(cfg, n, l) && HasRoom(n.phase.m, batch) && batch != [] && Wrote(n.phase.m, batch, fault)
    ensures LedgerHolds(cfg, RetireStep(cfg, n, batch, fault), Written(cfg.crc, n.phase.m, l, batch, fault))
  {
    hide FilesHold, Holds, AllRestorable, Flatten, RetireStep, ApplyTo, EncodeAll, Appended, AppendTo, NameTaken,
      AllEncodable;
    var m, log := n.phase.m, Flatten(n.trace);
    var next := RetireStep(cfg, n, batch, fault);
    HoldsPosition(m.store, log);
    ReadyLedger(cfg.crc, m, l, log);
    var ready := if m.active.written >= m.active.limit then Ledger(l.All(), Piece(|log|, [], [], 0)) else l;
    RetireKeepsStore(cfg, n, batch, fault);
    if AppendOk(ReadyFor(m).active, AppendOf(fault)) && !fault.ApplyFails? {
      AcknowledgedStep(cfg, n, batch, fault);
      OneMoreEntry(n.trace, Entry(batch, true, false, |batch|));
      AckedReady(cfg.crc, ReadyFor(m), ready, log, batch, fault);
      var s := ApplyTo(m.store, batch, |log| + |batch|);
      var to := WroteTo(cfg.crc, m, batch, NoFault);
      var after := ready.(active := ready.active.Acked(batch));
      StoreIsElsewhere(cfg.crc, to, s, to.commits + [s.backend], after, log + batch);
      SameOldestWritten(cfg.crc, m, batch, NoFault);
      BothEncodable(log, batch);
      AcknowledgedStore(m, log, batch, Oldest(m.Files()), n.phase.durable);
    } else {
      FailedStep(cfg, n, batch, fault);
      OneMoreEntry(n.trace, Last(next.trace));
      NoMutations(log);
      FailedReady(cfg.crc, ReadyFor(m), ready, log, batch, fault);
      SameOldestWritten(cfg.crc, m, batch, AppendOf(fault));
    }
  }

  lemma SameOldestWritten(crc: Crc, m: Machine, batch: seq<Mutation>, append: AppendFault)
    requires AllEncodable(batch)
    ensures Oldest(WroteTo(crc, m, batch, append).Files()) == Oldest(m.Files())
  {
    hide EncodeAll, AppendTo;
  }

  lemma BothEncodable(a: seq<Mutation>, b: seq<Mutation>)
    requires AllEncodable(a) && AllEncodable(b)
    ensures AllEncodable(a + b)
  {
  }

  lemma FailedReady(crc: Crc, m: Machine, l: Ledger, log: seq<Mutation>, batch: seq<Mutation>, fault: RetireFault)
    requires FilesHold(crc, m, l, log) && !m.active.poisoned && AllEncodable(batch)
    requires m.active.written < m.active.limit || m.first == |log|
    requires !AppendOf(fault).NoFault? || fault.ApplyFails?
    ensures FilesHold(crc, m.(active := AppendTo(m.active, EncodeAll(crc, batch), AppendOf(fault))),
                      l.(active := Appended(crc, l.active, batch, fault)), log)
  {
    hide EncodeAll, AppendTo, Appended, ActivePiece, SealedPiece;
    FailedAppend(crc, m.first, m.active, l.active, log, batch, fault);
    NoMutations(log);
    ActiveChanges(crc, m, l, log, AppendTo(m.active, EncodeAll(crc, batch), AppendOf(fault)),
                  Appended(crc, l.active, batch, fault), []);
  }

  lemma AckedReady(crc: Crc, m: Machine, l: Ledger, log: seq<Mutation>, batch: seq<Mutation>, fault: RetireFault)
    requires FilesHold(crc, m, l, log) && !m.active.poisoned && AllEncodable(batch)
    requires AppendOf(fault).NoFault? && !fault.ApplyFails?
    ensures Appended(crc, l.active, batch, fault) == l.active.Acked(batch)
    ensures FilesHold(crc, m.(active := AppendTo(m.active, EncodeAll(crc, batch), NoFault)),
                      l.(active := l.active.Acked(batch)), log + batch)
  {
    hide EncodeAll, AppendTo, ActivePiece, SealedPiece;
    AckedAppend(crc, m.first, m.active, l.active, log, batch);
    ActiveChanges(crc, m, l, log, AppendTo(m.active, EncodeAll(crc, batch), NoFault), l.active.Acked(batch), batch);
  }

  /** The files hold what they do whatever the store and its commits are. */
  lemma StoreIsElsewhere(crc: Crc, m: Machine, s: Store, commits: seq<Map>, l: Ledger, log: seq<Mutation>)
    requires FilesHold(crc, m, l, log)
    ensures FilesHold(crc, m.(store := s, commits := commits), l, log)
    ensures Oldest(m.(store := s, commits := commits).Files()) == Oldest(m.Files())
  {
    hide ActivePiece, SealedPiece, Chained;
  }

  lemma CheckpointHoldsLedger(cfg: Config, n: Node, l: Ledger, ok: bool, visible: bool)
    requires LedgerHolds(cfg, n, l)
    ensures LedgerHolds(cfg, CheckpointStep(n, ok, visible), l)
  {
    hide FilesHold, Holds, AllRestorable, Flatten, CheckpointOf, AllEncodable;
    var m, log := n.phase.m, Flatten(n.trace);
    CheckpointKeepsStore(n, ok, visible);
    CheckpointHolds(m.store, log);
    var s := CheckpointOf(m.store);
    HoldsPosition(m.store, log);
    HoldsPosition(s, log);
    CommitIsRestorable(m.commits, s, log, Oldest(m.Files()));
    CommitIsRestorable(m.commits, s, log, n.phase.durable);
    LatestIsRestorable(m.commits, s, log, Oldest(m.Files()));
    StoreIsElsewhere(cfg.crc, m, s, m.commits + [s.backend], l, log);
    StoreIsElsewhere(cfg.crc, m, s, [s.backend], l, log);
  }

  lemma FilesDrop(crc: Crc, m: Machine, l: Ledger, log: seq<Mutation>)
    requires FilesHold(crc, m, l, log) && m.sealed != []
    ensures FilesHold(crc, m.(sealed := m.sealed[1..], flushed := Drop(m.flushed, 1)), l.(sealed := l.sealed[1..]), log)
    ensures m.(sealed := m.sealed[1..], flushed := Drop(m.flushed, 1)).Files() == m.Files()[1..]
  {
    hide ActivePiece, Placed;
    var next, q := m.(sealed := m.sealed[1..], flushed := Drop(m.flushed, 1)), l.(sealed := l.sealed[1..]);
    assert q.All() == l.All()[1..];
    forall j | 0 <= j < |q.All()| - 1 ensures q.All()[j + 1].first == q.All()[j].Reached() {
      assert l.All()[j + 2].first == l.All()[j + 1].Reached();
    }
  }

  lemma RemoveHoldsLedger(cfg: Config, n: Node, l: Ledger)
    requires LedgerHolds(cfg, n, l)
    ensures LedgerHolds(cfg, RemoveStep(n), LedgerNext(cfg, n, l, Step.Remove))
  {
    hide Holds, Flatten, OpenOf, ActivePiece, SealedPiece, Chained;
    var Running(m, durable, _) := n.phase;
    var log := Flatten(n.trace);
    if m.sealed != [] && m.Files()[1].first <= durable {
      FilesDrop(cfg.crc, m, l, log);
      forall i | 0 <= i < |m.commits| ensures Restorable(m.commits[i], log, m.Files()[1].first) {
        assert Restorable(m.commits[i], log, durable);
      }
    }
  }

  lemma StepHoldsLedger(cfg: Config, n: Node, l: Ledger, step: Step)
    requires LedgerHolds(cfg, n, l) && StaysUp(step)
    ensures LedgerHolds(cfg, Next(cfg, n, step), LedgerNext(cfg, n, l, step))
  {
    hide LedgerHolds, RetireStep, CheckpointStep, RemoveStep, Written;
    LedgerIsUp(cfg, n, l);
    match step
    case Retire(batch, fault) =>
      if !HasRoom(n.phase.m, batch) || batch == [] {
        NoRetirement(cfg, n, batch, fault);
      } else if Wrote(n.phase.m, batch, fault) {
        WrittenHolds(cfg, n, l, batch, fault);
      } else {
        RefusedStep(cfg, n, batch, fault);
        RefusedHoldsLedger(cfg, n, l, batch, fault);
      }
    case Checkpoint(ok, visible) => CheckpointHoldsLedger(cfg, n, l, ok, visible);
    case Remove => RemoveHoldsLedger(cfg, n, l);
  }

  lemma LedgerIsUp(cfg: Config, n: Node, l: Ledger)
    requires LedgerHolds(cfg, n, l)
    ensures n.phase.Running?
  {
  }

  lemma NoRetirement(cfg: Config, n: Node, batch: seq<Mutation>, fault: RetireFault)
    requires n.phase.Running? && (!HasRoom(n.phase.m, batch) || batch == [])
    ensures RetireStep(cfg, n, batch, fault) == n
  {
  }

  lemma RefusedHoldsLedger(cfg: Config, n: Node, l: Ledger, batch: seq<Mutation>, fault: RetireFault)
    requires LedgerHolds(cfg, n, l) && !Wrote(n.phase.m, batch, fault)
    ensures LedgerHolds(cfg, n.(trace := n.trace + [Entry(batch, false, false, 0)]), l)
    ensures Written(cfg.crc, n.phase.m, l, batch, fault) == l
  {
    hide FilesHold, Holds, AllRestorable, Flatten, AllEncodable, Wrote;
    OneMoreEntry(n.trace, Entry(batch, false, false, 0));
    NoMutations(Flatten(n.trace));
  }

  // ---- Whole runs ---------------------------------------------------------------------------------------

  function Slice(log: seq<Mutation>, from: nat, to: nat): seq<Mutation> {
    if from <= to <= |log| then log[from..to] else []
  }

  function StartPiece(crc: Crc, f: File, log: seq<Mutation>, to: nat): Piece {
    var acked := Slice(log, f.first, to);
    Piece(f.first, Parse(crc, f.data).records, acked, |acked|)
  }

  /** The ledger of a log as a prudent run left it. */
  function StartLedger(crc: Crc, m: Machine, log: seq<Mutation>): Ledger {
    var files := m.Files();
    Ledger(seq(|m.sealed|, j requires 0 <= j < |m.sealed| => StartPiece(crc, files[j], log, files[j + 1].first)),
           StartPiece(crc, File(m.first, m.active.data), log, |log|))
  }

  /** The ledger after a prudent run and then some steps of a log that stays up. */
  ghost function LedgerAfter(cfg: Config, steps: seq<Step>, more: seq<Step>): Ledger
    requires Exec(cfg, steps).phase.Running?
    requires forall i :: 0 <= i < |more| ==> StaysUp(more[i])
  {
    if more == [] then StartLedger(cfg.crc, Exec(cfg, steps).phase.m, Flatten(Exec(cfg, steps).trace))
    else
      StillUp(cfg, steps, Front(more));
      LedgerNext(cfg, Exec(cfg, steps + Front(more)), LedgerAfter(cfg, steps, Front(more)), Last(more))
  }

  lemma {:induction false} StillUp(cfg: Config, steps: seq<Step>, more: seq<Step>)
    requires Exec(cfg, steps).phase.Running? && forall i :: 0 <= i < |more| ==> StaysUp(more[i])
    ensures Exec(cfg, steps + more).phase.Running?
  {
    hide Exec;
    if more == [] {
      assert steps + more == steps;
    } else {
      StillUp(cfg, steps, Front(more));
      assert steps + more == steps + Front(more) + [Last(more)];
      OneMoreStep(cfg, steps + Front(more), Last(more));
      StaysUpNext(cfg, Exec(cfg, steps + Front(more)), Last(more));
    }
  }

  lemma StaysUpNext(cfg: Config, n: Node, step: Step)
    requires n.phase.Running? && StaysUp(step)
    ensures Next(cfg, n, step).phase.Running?
  {
    hide EncodeAll, ApplyTo, AppendTo, NameTaken, AllEncodable, Drifts, RetireBatch;
  }

  /** A sealed segment of a prudent log. */
  lemma StartSealed(crc: Crc, files: seq<File>, log: seq<Mutation>, tail: bytes, j: nat, synced: nat)
    requires HoldsLog(crc, files, log, tail) && j < |files| - 1 && |files[j].data| <= synced
    ensures var p := StartPiece(crc, files[j], log, files[j + 1].first);
            SealedPiece(crc, files[j], synced, p, log) && p.Reached() == files[j + 1].first
  {
    hide EncodeAll;
    assert Sealed(crc, files, log, j);
    var acked := log[files[j].first..files[j + 1].first];
    WholeLogParses(crc, acked);
    assert acked[..|acked|] == acked;
  }

  /** Its active one, whatever a failure left past the log. */
  lemma StartActive(cfg: Config, m: Machine, log: seq<Mutation>, batch: seq<Mutation>, tail: bytes)
    requires LogHeld(cfg, m, log, tail, false) && AllEncodable(batch) && tail <= EncodeAll(cfg.crc, batch)
    ensures ActivePiece(cfg.crc, m.first, m.active, StartPiece(cfg.crc, File(m.first, m.active.data), log, |log|), log)
  {
    hide EncodeAll, Whole, HoldsLog, Parse;
    ActiveHolds(cfg.crc, m.sealed, m.first, m.active.data, log, tail);
    var acked := log[m.first..];
    LogThenCutParses(cfg.crc, acked, batch, tail);
    ReadsTorn(cfg.crc, acked, batch, tail);
    NothingEncodes(cfg.crc);
    var p := StartPiece(cfg.crc, File(m.first, m.active.data), log, |log|);
    assert p.acked == acked == p.written[..p.mark];
    if !m.active.poisoned {
      assert tail == [];
      NoBytes(EncodeAll(cfg.crc, acked));
      EmptyTail(cfg.crc, batch);
      NoMutations(acked);
      assert batch[..0] == [];
    }
  }

  lemma StartFiles(cfg: Config, m: Machine, log: seq<Mutation>, batch: seq<Mutation>, tail: bytes)
    requires LogHeld(cfg, m, log, tail, false) && AllEncodable(batch) && tail <= EncodeAll(cfg.crc, batch)
    ensures FilesHold(cfg.crc, m, StartLedger(cfg.crc, m, log), log)
  {
    hide HoldsLog, EncodeAll, SealedPiece, ActivePiece, StartPiece;
    StartActive(cfg, m, log, batch, tail);
    var l, files := StartLedger(cfg.crc, m, log), m.Files();
    assert files == Listing(m.sealed, m.first, m.active.data);
    forall j | 0 <= j < |m.sealed|
      ensures SealedPiece(cfg.crc, m.sealed[j], m.flushed[j], l.sealed[j], log)
      ensures l.All()[j + 1].first == l.All()[j].Reached()
    {
      StartSealed(cfg.crc, files, log, tail, j, m.flushed[j]);
      StartFirst(cfg.crc, m, log, j + 1);
    }
  }

  lemma StartHolds(cfg: Config, n: Node)
    requires Invariant(cfg, n) && n.phase.Running? && !n.phase.drifted
    ensures LedgerHolds(cfg, n, StartLedger(cfg.crc, n.phase.m, Flatten(n.trace)))
  {
    hide LogHeld, Holds, AllRestorable, Flatten, EncodeAll, FilesHold, StartLedger;
    PrudentKeepsStore(cfg, n);
    var tail :| RunningHolds(cfg, n, tail);
    NothingEncodes(cfg.crc);
    StartFiles(cfg, n.phase.m, Flatten(n.trace),
               if n.caught.Some? then n.trace[n.caught.value].batch else [], tail);
  }

  lemma StartFirst(crc: Crc, m: Machine, log: seq<Mutation>, j: nat)
    requires j <= |m.sealed|
    ensures StartLedger(crc, m, log).All()[j].first == m.Files()[j].first
  {
  }

  /** However a log that stays up is written on, its files hold what the ledger says. */
  lemma {:induction false} RunHoldsLedger(cfg: Config, steps: seq<Step>, more: seq<Step>)
    requires Volume(steps) <= I64_MAX && Prudent(cfg, steps)
    requires Exec(cfg, steps).phase.Running? && !Exec(cfg, steps).phase.drifted
    requires forall i :: 0 <= i < |more| ==> StaysUp(more[i])
    ensures LedgerHolds(cfg, Exec(cfg, steps + more), LedgerAfter(cfg, steps, more))
  {
    hide LedgerHolds, Exec, Next, Prudent, Volume, StaysUp, LedgerNext, StartLedger;
    if more == [] {
      assert steps + more == steps;
      RunKeeps(cfg, steps);
      StartHolds(cfg, Exec(cfg, steps));
    } else {
      var before := Exec(cfg, steps + Front(more));
      RunHoldsLedger(cfg, steps, Front(more));
      LedgerIsUp(cfg, before, LedgerAfter(cfg, steps, Front(more)));
      assert steps + more == steps + Front(more) + [Last(more)];
      OneMoreStep(cfg, steps + Front(more), Last(more));
      StepHoldsLedger(cfg, before, LedgerAfter(cfg, steps, Front(more)), Last(more));
    }
  }
}
