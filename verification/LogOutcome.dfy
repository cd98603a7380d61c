/**
 What a crash and a recovery make of a log that lost batches and was written on, in terms of
 what each of its segments was given.
 */
module LogOutcomes {
  import opened Wrappers
  import opened Sequences
  import opened ByteStrings
  import opened Revisions
  import opened Mutations
  import opened Joined
  import opened Frames
  import opened LogRecords
  import opened Segments
  import opened Recovery
  import opened Stores
  import opened LogStores
  import opened LogMachine
  import opened LogShapes
  import opened LogRuns
  import opened LogGuarantees
  import opened LogDrift
  import opened LogAftermath
  import opened LogLedger

  // ---- What a crash leaves of each segment ------------------------------------------------------

  function RecordsIn(crc: Crc, f: File): seq<Mutation> {
    Parse(crc, f.data).records
  }

  /** The file reads back as a beginning of what was written, everything acknowledged among it. */
  ghost predicate Left(crc: Crc, f: File, p: Piece) {
    && f.first == p.first && !Parse(crc, f.data).end.Damaged?
    && p.mark <= |RecordsIn(crc, f)| <= |p.written|
    && RecordsIn(crc, f) == p.written[..|RecordsIn(crc, f)|]
  }

  lemma WholeRises(crc: Crc, ms: seq<Mutation>, m: nat, n: nat)
    requires AllEncodable(ms) && m <= n
    ensures Whole(crc, ms, m) <= Whole(crc, ms, n)
  {
    WithinRises(LogRecords.Records(crc, ms), m, n);
  }

  /** A cut that keeps what was flushed keeps the records up to the mark. */
  lemma CutPiece(crc: Crc, f: File, p: Piece, synced: nat, log: seq<Mutation>, n: nat)
    requires f.first == p.first && Placed(crc, p, synced, log) && Reads(crc, f.data, p.written) && synced <= n
    ensures Left(crc, File(f.first, Cut(f.data, n)), p)
  {
    hide EncodeAll, Whole, Parse;
    var rest :| AllEncodable(rest) && ReadsWith(crc, f.data, p.written, rest);
    var all, cut := p.written + rest, Cut(f.data, n);
    var a, b := p.written[..p.mark], p.written[p.mark..] + rest;
    assert all == a + b;
    EncodeConcat(crc, a, b);
    MarkInside(crc, p.written, p.mark, f.data, rest);
    assert EncodeAll(crc, a) <= cut;
    var tail := cut[|EncodeAll(crc, a)|..];
    assert cut == EncodeAll(crc, a) + tail;
    CutFacts(crc, a, b, tail);
    CutLogParses(crc, all, cut);
    WholeRises(crc, all, |cut|, |f.data|);
  }

  lemma MarkInside(crc: Crc, written: seq<Mutation>, mark: nat, data: bytes, rest: seq<Mutation>)
    requires mark <= |written| && AllEncodable(written) && AllEncodable(rest) && ReadsWith(crc, data, written, rest)
    ensures EncodeAll(crc, written[..mark]) <= data
  {
    hide EncodeAll;
    var all := written + rest;
    WholePrefix(crc, all, |data|);
    assert all[..|written|] == written;
    EncodeConcat(crc, written[..mark], written[mark..]);
    assert written == written[..mark] + written[mark..];
    EncodeConcat(crc, written, rest);
  }

  /** The records counted whole within a number of bytes take no more than these. */
  lemma WholePrefix(crc: Crc, ms: seq<Mutation>, n: nat)
    requires AllEncodable(ms) && n <= |EncodeAll(crc, ms)|
    ensures |EncodeAll(crc, ms[..Whole(crc, ms, n)])| <= n
  {
    hide EncodeAll, Whole;
    NothingEncodes(crc);
    CutFacts(crc, [], ms, EncodeAll(crc, ms)[..n]);
  }

  /** Whatever a power loss cuts off or a process death leaves. */
  lemma CrashLeaves(cfg: Config, n: Node, l: Ledger, crash: Step)
    requires LedgerHolds(cfg, n, l) && Crashes(n, crash)
    ensures var files := FilesOf(Next(cfg, n, crash).phase);
            |files| == |l.All()| && forall j :: 0 <= j < |files| ==> Left(cfg.crc, files[j], l.All()[j])
  {
    hide StoreKeeps, AllRestorable, EncodeAll, Flatten, Reads, Placed, Left, Settled, Oldest;
    LedgerIsUp(cfg, n, l);
    var m, log, files := n.phase.m, Flatten(n.trace), FilesOf(Next(cfg, n, crash).phase);
    var was, flushed, all := m.Files(), m.Flushed(), l.All();
    forall j | 0 <= j < |files| ensures Left(cfg.crc, files[j], all[j]) {
      var cut := if crash.Crash? then Nth(crash.cuts, j) else |was[j].data|;
      var kept := if cut < flushed[j] then flushed[j] else cut;
      assert files[j] == File(was[j].first, Cut(was[j].data, kept));
      if j < |m.sealed| {
        assert SealedPiece(cfg.crc, m.sealed[j], m.flushed[j], l.sealed[j], log);
        PlacedIsEncodable(cfg.crc, l.sealed[j], m.flushed[j], log);
        ReadsItself(cfg.crc, l.sealed[j].written);
      }
      CutPiece(cfg.crc, was[j], all[j], flushed[j], log, kept);
    }
  }

  // ---- Reading the segments in order --------------------------------------------------------------

  /** The acknowledged records of the pieces, one after another, are the log from where they begin. */
  ghost predicate Partitions(pieces: seq<Piece>, log: seq<Mutation>) {
    && pieces != [] && Chained(pieces) && Last(pieces).Reached() == |log|
    && forall j :: 0 <= j < |pieces| ==> IsPart(pieces[j], log)
  }

  ghost predicate IsPart(p: Piece, log: seq<Mutation>) {
    && p.Reached() <= |log| && log[p.first..p.Reached()] == p.acked
    && |p.acked| <= p.mark <= |p.written| && (p.mark == |p.acked| ==> p.written[..p.mark] == p.acked)
  }

  /** A segment whose records past `applied` are all acknowledged ones: none is, or it holds no others. */
  predicate NoneLost(p: Piece, records: seq<Mutation>, applied: nat) {
    |records| == |p.acked| || p.first + |records| <= applied
  }

  ghost predicate NoneLostBefore(crc: Crc, files: seq<File>, pieces: seq<Piece>, applied: nat, n: nat)
    requires n <= |files| <= |pieces|
  {
    forall j :: 0 <= j < n ==> NoneLost(pieces[j], RecordsIn(crc, files[j]), applied)
  }

  lemma LeftMeans(crc: Crc, f: File, p: Piece, log: seq<Mutation>)
    requires Left(crc, f, p) && IsPart(p, log)
    ensures |p.acked| <= |RecordsIn(crc, f)| && (|RecordsIn(crc, f)| == |p.acked| ==> RecordsIn(crc, f) == p.acked)
  {
    hide Parse;
  }

  function Later(a: nat, b: nat): nat {
    if a < b then b else a
  }

  /** How far reading one more segment gets, and when what it adds is the log's. */
  lemma OneMoreSegment(log: seq<Mutation>, p: Piece, records: seq<Mutation>, applied: nat, pending: seq<Mutation>,
                       good: bool)
    requires p.Reached() <= |log| && log[p.first..p.Reached()] == p.acked
    requires |p.acked| <= |records| && (|records| == |p.acked| ==> records == p.acked)
    requires applied + |pending| >= Later(applied, p.first)
    requires good <==> applied + |pending| == Later(applied, p.first)
    requires good ==> pending == From(log, applied, p.first)
    ensures var next := pending + NewRecords(p.first, records, applied);
            && applied + |next| >= Later(applied, p.first + |records|)
            && (good <==> applied + |next| == Later(applied, p.first + |records|))
            && (good && NoneLost(p, records, applied) <==> applied + |next| == Later(applied, p.Reached()))
            && (good && NoneLost(p, records, applied) ==> next == From(log, applied, p.Reached()))
  {
    if good && |records| == |p.acked| {
      FromExtends(log, applied, p.first, p.Reached());
    }
  }

  lemma {:induction false} ScanPieces(crc: Crc, files: seq<File>, pieces: seq<Piece>, log: seq<Mutation>, applied: nat,
                                      n: nat)
    requires Partitions(pieces, log) && |files| == |pieces| && n < |files| && pieces[0].first <= applied
    requires forall j :: 0 <= j < |files| ==> Left(crc, files[j], pieces[j])
    requires forall j :: 0 <= j < n ==> Parse(crc, files[j].data).end.Clean?
    ensures ScanFiles(crc, files, applied, n).Ok?
    ensures var pending, good := ScanFiles(crc, files, applied, n).value.pending,
                                 NoneLostBefore(crc, files, pieces, applied, n);
            && applied + |pending| >= Later(applied, pieces[n].first)
            && (good <==> applied + |pending| == Later(applied, pieces[n].first))
            && (good ==> pending == From(log, applied, pieces[n].first))
  {
    hide Parse, NewRecords, Left, NoneLost;
    if n > 0 {
      ScanPieces(crc, files, pieces, log, applied, n - 1);
      var p, f := pieces[n - 1], files[n - 1];
      assert Left(crc, f, p) && IsPart(p, log);
      LeftMeans(crc, f, p, log);
      LeftFirst(crc, f, p);
      OneMoreSegment(log, p, RecordsIn(crc, f), applied, ScanFiles(crc, files, applied, n - 1).value.pending,
                     NoneLostBefore(crc, files, pieces, applied, n - 1));
      assert pieces[n].first == p.Reached();
    }
  }

  lemma LeftFirst(crc: Crc, f: File, p: Piece)
    requires Left(crc, f, p)
    ensures f.first == p.first && !Parse(crc, f.data).end.Damaged?
  {
  }

  /**
   Every sealed segment reads clean and holds no lost record past `applied`, and in the last
   one what was acknowledged past it comes first.
   */
  ghost predicate InPlace(crc: Crc, files: seq<File>, pieces: seq<Piece>, applied: nat)
    requires |files| == |pieces| && pieces != []
  {
    var p := Last(pieces);
    && (forall j :: 0 <= j < |files| - 1 ==> Parse(crc, files[j].data).end.Clean?)
    && NoneLostBefore(crc, files, pieces, applied, |files| - 1)
    && NewRecords(p.first, p.acked, applied) <= NewRecords(p.first, RecordsIn(crc, Last(files)), applied)
  }

  lemma {:induction false} TornIsRefused(crc: Crc, files: seq<File>, applied: nat, j: nat)
    requires j < |files| - 1 && !Parse(crc, files[j].data).end.Clean?
    ensures ScanFiles(crc, files, applied, |files|).Err?
  {
    hide Parse, NewRecords;
    ScanFailsCorrupt(crc, files, applied, j + 1);
    ScanStaysFailed(crc, files, applied, j + 1, |files|);
  }

  lemma PiecesContinue(crc: Crc, files: seq<File>, pieces: seq<Piece>, log: seq<Mutation>, applied: nat)
    requires Partitions(pieces, log) && |files| == |pieces| && pieces[0].first <= applied <= |log|
    requires forall j :: 0 <= j < |files| ==> Left(crc, files[j], pieces[j])
    requires Last(pieces).End() <= I64_MAX
    ensures Continues(crc, files, applied, log) <==> InPlace(crc, files, pieces, applied)
  {
    hide Parse, NewRecords, Left, NoneLost, Partitions, NoneLostBefore;
    PartitionEnds(pieces, log);
    if j: nat :| j < |files| - 1 && !Parse(crc, files[j].data).end.Clean? {
      TornIsRefused(crc, files, applied, j);
    } else {
      var n, p, f := |files| - 1, Last(pieces), Last(files);
      ScanPieces(crc, files, pieces, log, applied, n);
      assert Left(crc, f, p) by { assert Left(crc, files[n], pieces[n]); }
      LeftMeans(crc, f, p, log);
      LeftFirst(crc, f, p);
      LeftEnds(crc, f, p);
      LastSegment(log, p, RecordsIn(crc, f), applied, ScanFiles(crc, files, applied, n).value.pending,
                  NoneLostBefore(crc, files, pieces, applied, n));
    }
  }

  lemma PartitionEnds(pieces: seq<Piece>, log: seq<Mutation>)
    requires Partitions(pieces, log)
    ensures pieces != [] && IsPart(Last(pieces), log) && Last(pieces).Reached() == |log|
  {
    assert IsPart(pieces[|pieces| - 1], log);
  }

  lemma LeftEnds(crc: Crc, f: File, p: Piece)
    requires Left(crc, f, p)
    ensures f.first + |RecordsIn(crc, f)| <= p.End()
  {
  }

  /** With the last segment read too, what is pending continues the store if and only if all was in place. */
  lemma LastSegment(log: seq<Mutation>, p: Piece, records: seq<Mutation>, applied: nat, pending: seq<Mutation>,
                    good: bool)
    requires IsPart(p, log) && p.Reached() == |log| && applied <= |log| && p.first + |records| <= I64_MAX
    requires |p.acked| <= |records| && (|records| == |p.acked| ==> records == p.acked)
    requires applied + |pending| >= Later(applied, p.first)
    requires good <==> applied + |pending| == Later(applied, p.first)
    requires good ==> pending == From(log, applied, p.first)
    ensures var all := pending + NewRecords(p.first, records, applied);
            (&& applied <= p.first + |records| && log[applied..] <= all && applied + |all| <= I64_MAX
             && (all == [] || p.first + |records| == applied + |all|)) <==>
            good && NewRecords(p.first, p.acked, applied) <= NewRecords(p.first, records, applied)
  {
    var all, mine := pending + NewRecords(p.first, records, applied), NewRecords(p.first, p.acked, applied);
    OneMoreSegment(log, p, records, applied, pending, good);
    if good {
      FromExtends(log, applied, p.first, |log|);
      assert log[applied..] == From(log, applied, |log|) == pending + mine;
      PrefixAfter(pending, mine, NewRecords(p.first, records, applied));
    }
  }

  lemma PrefixAfter<T>(a: seq<T>, b: seq<T>, c: seq<T>)
    ensures a + b <= a + c <==> b <= c
  {
    if a + b <= a + c {
      assert (a + b)[|a|..] == b && (a + c)[|a|..] == c;
      assert (a + c)[..|a + b|][|a|..] == c[..|b|];
    }
  }

  // ---- How far the names reach ------------------------------------------------------------------------

  /** No piece ends past what was ever handed to the log. */
  ghost predicate EndsBy(l: Ledger, volume: nat) {
    forall p :: p in l.All() ==> p.End() <= volume
  }

  lemma StartEnds(cfg: Config, n: Node)
    requires Invariant(cfg, n) && n.phase.Running? && !n.phase.drifted
    ensures EndsBy(StartLedger(cfg.crc, n.phase.m, Flatten(n.trace)), Total(n.trace))
  {
    hide HoldsLog, Holds, AllRestorable, Flatten, EncodeAll, Parse, Quiet, StartPiece;
    var tail :| RunningHolds(cfg, n, tail);
    var m, log, files := n.phase.m, Flatten(n.trace), n.phase.m.Files();
    FlattenFits(n.trace);
    assert files == Listing(m.sealed, m.first, m.active.data);
    StartActiveEnds(cfg.crc, m, log, n.trace, n.caught, tail);
    forall j | 0 <= j < |m.sealed| ensures StartLedger(cfg.crc, m, log).sealed[j].End() <= |log| {
      StartSealedEnds(cfg.crc, files, log, tail, j);
    }
  }

  /** What a failure left past the log counts no more than its batch. */
  lemma StartActiveEnds(crc: Crc, m: Machine, log: seq<Mutation>, trace: seq<Entry>, caught: Option<nat>, tail: bytes)
    requires HoldsLog(crc, Listing(m.sealed, m.first, m.active.data), log, tail) && log == Flatten(trace)
    requires CaughtTail(crc, trace, caught, tail)
    ensures StartPiece(crc, File(m.first, m.active.data), log, |log|).End() <= Total(trace)
  {
    hide HoldsLog, Flatten, EncodeAll, Parse, Whole, Quiet, Total;
    FlattenFits(trace);
    NothingEncodes(crc);
    EmptyTail(crc, []);
    ActiveHolds(crc, m.sealed, m.first, m.active.data, log, tail);
    if caught.Some? {
      QuietIsThere(crc, trace, caught, tail);
      var batch := trace[caught.value].batch;
      var k := Whole(crc, batch, |tail|);
      LogThenCutParses(crc, log[m.first..], batch, tail);
      KeepingCaught(trace, caught.value, k);
      FlattenFits(trace[caught.value := trace[caught.value].(kept := k)]);
    } else {
      LogThenCutParses(crc, log[m.first..], [], tail);
    }
  }

  lemma StartSealedEnds(crc: Crc, files: seq<File>, log: seq<Mutation>, tail: bytes, j: nat)
    requires HoldsLog(crc, files, log, tail) && j < |files| - 1
    ensures StartPiece(crc, files[j], log, files[j + 1].first).End() <= |log|
  {
    hide EncodeAll, Parse;
    assert Sealed(crc, files, log, j);
    WholeLogParses(crc, log[files[j].first..files[j + 1].first]);
  }

  lemma StepEnds(cfg: Config, n: Node, l: Ledger, step: Step, volume: nat)
    requires LedgerHolds(cfg, n, l) && EndsBy(l, volume) && |Flatten(n.trace)| <= volume
    ensures EndsBy(LedgerNext(cfg, n, l, step), volume + if step.Retire? then |step.batch| else 0)
  {
    hide FilesHold, AllRestorable, Flatten, Wrote, AllEncodable, EncodeAll, Whole;
    HoldsPosition(n.phase.m.store, Flatten(n.trace));
    var next := LedgerNext(cfg, n, l, step);
    assert l.active in l.All();
    if step.Remove? {
      assert forall p :: p in next.All() ==> p in l.All();
    }
  }

  lemma VolumeSnoc(steps: seq<Step>, step: Step)
    ensures Volume(steps + [step]) == Volume(steps) + if step.Retire? then |step.batch| else 0
  {
    Snoc(steps, step);
  }

  lemma {:induction false} TotalFits(cfg: Config, steps: seq<Step>)
    ensures Total(Exec(cfg, steps).trace) <= Volume(steps)
  {
    hide Next;
    if steps != [] {
      TotalFits(cfg, Front(steps));
      StepAdds(cfg, Exec(cfg, Front(steps)), Last(steps));
    }
  }

  lemma {:induction false} RunEnds(cfg: Config, steps: seq<Step>, more: seq<Step>)
    requires Volume(steps) <= I64_MAX && Prudent(cfg, steps)
    requires Exec(cfg, steps).phase.Running? && !Exec(cfg, steps).phase.drifted
    requires forall i :: 0 <= i < |more| ==> StaysUp(more[i])
    ensures EndsBy(LedgerAfter(cfg, steps, more), Volume(steps + more))
  {
    hide Exec, Next, Prudent, Volume, StaysUp, LedgerNext, StartLedger, LedgerHolds, Flatten;
    if more == [] {
      assert steps + more == steps;
      RunKeeps(cfg, steps);
      TotalFits(cfg, steps);
      StartEnds(cfg, Exec(cfg, steps));
    } else {
      var before := Exec(cfg, steps + Front(more));
      RunEnds(cfg, steps, Front(more));
      RunHoldsLedger(cfg, steps, Front(more));
      LedgerIsUp(cfg, before, LedgerAfter(cfg, steps, Front(more)));
      assert steps + more == steps + Front(more) + [Last(more)];
      VolumeSnoc(steps + Front(more), Last(more));
      TotalFits(cfg, steps + Front(more));
      FlattenFits(before.trace);
      StepEnds(cfg, before, LedgerAfter(cfg, steps, Front(more)), Last(more), Volume(steps + Front(more)));
    }
  }

  // ---- The outcome ----------------------------------------------------------------------------------------

  lemma LedgerPartitions(cfg: Config, n: Node, l: Ledger)
    requires LedgerHolds(cfg, n, l)
    ensures Partitions(l.All(), Flatten(n.trace)) && l.All()[0].first == Oldest(n.phase.m.Files())
  {
    hide StoreKeeps, AllRestorable, EncodeAll, Flatten, Reads;
    LedgerIsUp(cfg, n, l);
    var m, log := n.phase.m, Flatten(n.trace);
    forall j | 0 <= j < |l.All()| ensures IsPart(l.All()[j], log) {
      assert j < |m.sealed| ==> SealedPiece(cfg.crc, m.sealed[j], m.flushed[j], l.sealed[j], log);
    }
    assert m.sealed != [] ==> SealedPiece(cfg.crc, m.sealed[0], m.flushed[0], l.sealed[0], log);
  }

  lemma RestoredInLedger(cfg: Config, n: Node, l: Ledger, restored: nat)
    requires LedgerHolds(cfg, n, l) && restored < |CommitsOf(n.phase)|
    ensures Restorable(CommitsOf(n.phase)[restored], Flatten(n.trace), l.All()[0].first)
  {
    hide FilesHold, Holds, Flatten, OpenOf;
    LedgerPartitions(cfg, n, l);
  }

  /**
   After any prudent run, and then any steps of a log that stays up, batches lost and
   acknowledged in any number and over any segments, a crash and a recovery leave everything
   acknowledged standing if and only if every sealed segment reads clean and holds no lost
   record past the position restored, and in the last segment the records acknowledged past
   it come first.
   */
  lemma OutcomeIsExact(cfg: Config, steps: seq<Step>, more: seq<Step>, crash: Step)
    requires Volume(steps + more) <= I64_MAX && Volume(steps) <= I64_MAX && Prudent(cfg, steps)
    requires Exec(cfg, steps).phase.Running? && !Exec(cfg, steps).phase.drifted
    requires forall i :: 0 <= i < |more| ==> StaysUp(more[i])
    requires Crashes(Exec(cfg, steps + more), crash)
    ensures var a, pieces := Exec(cfg, steps + more), LedgerAfter(cfg, steps, more).All();
            var down, commit := Next(cfg, a, crash), OpenOf(CommitsOf(a.phase)[crash.restored]);
            && commit.Ok? && |FilesOf(down.phase)| == |pieces|
            && (forall j :: 0 <= j < |pieces| ==> Left(cfg.crc, FilesOf(down.phase)[j], pieces[j]))
            && (Stands(RecoverStep(cfg, down, true), Flatten(a.trace)) <==>
                InPlace(cfg.crc, FilesOf(down.phase), pieces, commit.value.applied))
  {
    hide Exec, Next, Prudent, Volume, StaysUp, LedgerNext, LedgerAfter, LedgerHolds, Flatten, OpenOf, Left, InPlace,
      Continues, Stands, RecoverStep, Holds, Partitions, CommitsOf, FilesOf;
    var a, l := Exec(cfg, steps + more), LedgerAfter(cfg, steps, more);
    var files := FilesOf(Next(cfg, a, crash).phase);
    RunHoldsLedger(cfg, steps, more);
    RunEnds(cfg, steps, more);
    CrashLeaves(cfg, a, l, crash);
    LedgerPartitions(cfg, a, l);
    RestoredInLedger(cfg, a, l, crash.restored);
    AftermathIsExact(cfg, steps, more, crash);
    assert l.active in l.All() && Last(l.All()) == l.active;
    PiecesContinue(cfg.crc, files, l.All(), Flatten(a.trace), OpenOf(CommitsOf(a.phase)[crash.restored]).value.applied);
  }

  // ---- After a process death ----------------------------------------------------------------------------------

  /** What was written, lost batches included, agrees with what was acknowledged past `applied`. */
  predicate Agrees(pieces: seq<Piece>, applied: nat)
    requires pieces != []
  {
    var p := Last(pieces);
    && (forall j :: 0 <= j < |pieces| - 1 ==> NoneLost(pieces[j], pieces[j].written, applied))
    && NewRecords(p.first, p.acked, applied) <= NewRecords(p.first, p.written, applied)
  }

  /** A process death leaves every file as it was written. */
  lemma KillLeavesAll(cfg: Config, n: Node, l: Ledger, restored: nat)
    requires LedgerHolds(cfg, n, l) && restored < |CommitsOf(n.phase)|
    ensures var files := FilesOf(Next(cfg, n, Step.Kill(restored)).phase);
            && |files| == |l.All()|
            && (forall j :: 0 <= j < |files| ==> RecordsIn(cfg.crc, files[j]) == l.All()[j].written)
            && (forall j :: 0 <= j < |files| - 1 ==> Parse(cfg.crc, files[j].data).end.Clean?)
  {
    hide StoreKeeps, AllRestorable, EncodeAll, Flatten, Placed, Oldest, Parse, Whole;
    LedgerIsUp(cfg, n, l);
    var m, log, files := n.phase.m, Flatten(n.trace), FilesOf(Next(cfg, n, Step.Kill(restored)).phase);
    forall j | 0 <= j < |files|
      ensures RecordsIn(cfg.crc, files[j]) == l.All()[j].written
      ensures j < |files| - 1 ==> Parse(cfg.crc, files[j].data).end.Clean?
    {
      if j < |m.sealed| {
        assert SealedPiece(cfg.crc, m.sealed[j], m.flushed[j], l.sealed[j], log);
        PlacedIsEncodable(cfg.crc, l.sealed[j], m.flushed[j], log);
        WholeLogParses(cfg.crc, l.sealed[j].written);
      } else {
        ReadsParses(cfg.crc, m.active.data, l.active.written);
      }
    }
  }

  lemma ReadsParses(crc: Crc, data: bytes, written: seq<Mutation>)
    requires Reads(crc, data, written)
    ensures Parse(crc, data).records == written
  {
    hide EncodeAll, Parse, Whole;
    var rest :| AllEncodable(rest) && ReadsWith(crc, data, written, rest);
    CutLogParses(crc, written + rest, data);
  }

  /**
   A process death and a recovery leave everything acknowledged standing if and only if no
   segment but the last was given a batch that was lost and reaches past the position
   restored, and in the last the batches acknowledged past it were written before any lost.
   */
  lemma DeathIsExact(cfg: Config, steps: seq<Step>, more: seq<Step>, restored: nat)
    requires Volume(steps + more) <= I64_MAX && Volume(steps) <= I64_MAX && Prudent(cfg, steps)
    requires Exec(cfg, steps).phase.Running? && !Exec(cfg, steps).phase.drifted
    requires forall i :: 0 <= i < |more| ==> StaysUp(more[i])
    requires restored < |CommitsOf(Exec(cfg, steps + more).phase)|
    ensures var a, pieces := Exec(cfg, steps + more), LedgerAfter(cfg, steps, more).All();
            var commit := OpenOf(CommitsOf(a.phase)[restored]);
            && commit.Ok?
            && (Stands(RecoverStep(cfg, KillStep(a, restored), true), Flatten(a.trace)) <==>
                Agrees(pieces, commit.value.applied))
  {
    hide Exec, Prudent, Volume, StaysUp, LedgerNext, LedgerAfter, LedgerHolds, Flatten, OpenOf, Left, Stands, Parse,
      RecoverStep, CommitsOf, FilesOf, KillStep;
    var a, l := Exec(cfg, steps + more), LedgerAfter(cfg, steps, more);
    RunHoldsLedger(cfg, steps, more);
    OutcomeIsExact(cfg, steps, more, Step.Kill(restored));
    KillLeavesAll(cfg, a, l, restored);
  }
}
