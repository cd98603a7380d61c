/**
 Writing on after a failed flush or apply: a batch lost to its caller lies in the file where
 the next one is then numbered. When a power loss and recovery keep what was acknowledged.
 */
module LogDrift {
  import opened Wrappers
  import opened Sequences
  import opened ByteStrings
  import opened Revisions
  import opened Mutations
  import opened Frames
  import opened LogRecords
  import opened Segments
  import opened Recovery
  import opened StoredRecord
  import opened Stores
  import opened StoreInvariant
  import opened StoreReopen
  import opened LogStores
  import opened LogMachine
  import opened LogShapes
  import opened LogRuns
  import LogGuarantees

  // ---- A store determines its log ---------------------------------------------------------------

  lemma SameRecord(a: Event, b: Event)
    requires a.rev.Valid() && b.rev.Valid() && Key(a) == Key(b) && Value(a) == Value(b)
    requires |a.m.key| < U32_END && |b.m.key| < U32_END
    ensures a == b
  {
    KeyIsInjective(a, b);
    StoredRecord.RecordRoundTrip(a.m.key, a.m.Payload());
    StoredRecord.RecordRoundTrip(b.m.key, b.m.Payload());
  }

  lemma RepresentedKeys(s: Store, log: seq<Event>)
    requires Represents(s, log) && s.compacted == 0
    ensures RecordKeys(s.backend) == Keys(log)
    ensures forall i :: 0 <= i < |log| ==> Keys(log)[i] in s.backend && s.backend[Keys(log)[i]] == Value(log[i])
  {
    ScanFollowsLog(s.backend, log, 0);
    AllSurvive(log);
    forall i | 0 <= i < |log| ensures Keys(log)[i] in s.backend && s.backend[Keys(log)[i]] == Value(log[i]) {
      EverythingSurvivesAtZero(log, i);
    }
  }

  /** No two logs make the same store. */
  lemma HoldsDetermines(s: Store, a: seq<Mutation>, b: seq<Mutation>)
    requires AllEncodable(a) && AllEncodable(b) && Holds(s, a) && Holds(s, b)
    ensures a == b
  {
    var x, y := EventsAfter(ZERO, a), EventsAfter(ZERO, b);
    LogGuarantees.HoldsRepresents(s, a);
    LogGuarantees.HoldsRepresents(s, b);
    hide Represents, Holds;
    RepresentedKeys(s, x);
    RepresentedKeys(s, y);
    WrittenBy(s, x);
    WrittenBy(s, y);
    assert |Keys(x)| == |x| && |Keys(y)| == |y|;
    forall i | 0 <= i < |a| ensures a[i] == b[i] {
      assert Keys(x)[i] == Keys(y)[i];
      SameRecord(x[i], y[i]);
    }
  }

  lemma WrittenBy(s: Store, log: seq<Event>)
    requires Represents(s, log)
    ensures Written(log)
  {
  }

  /** The store holds a log that begins with everything acknowledged, each at its own revision. */
  ghost predicate Stands(up: Node, acked: seq<Mutation>) {
    up.phase.Replayed? && exists log :: acked <= log && AllEncodable(log) && Holds(up.phase.store, log)
  }

  lemma StandsOn(up: Node, acked: seq<Mutation>, log: seq<Mutation>)
    requires up.phase.Replayed? && AllEncodable(log) && Holds(up.phase.store, log)
    ensures Stands(up, acked) <==> acked <= log
  {
    hide Holds;
    forall other | AllEncodable(other) && Holds(up.phase.store, other) ensures other == log {
      HoldsDetermines(up.phase.store, log, other);
    }
  }

  lemma StandingPosition(up: Node, acked: seq<Mutation>)
    requires Stands(up, acked)
    ensures up.phase.store.applied == up.phase.store.current.main
  {
    hide Holds;
    var log :| acked <= log && AllEncodable(log) && Holds(up.phase.store, log);
    HoldsPosition(up.phase.store, log);
  }

  /** A store whose position is not its revision holds no log. */
  lemma DisplacedStandsNot(up: Node, acked: seq<Mutation>)
    requires up.phase.Replayed? && up.phase.store.applied != up.phase.store.current.main
    ensures !Stands(up, acked)
  {
    hide Stands;
    if Stands(up, acked) {
      StandingPosition(up, acked);
    }
  }

  // ---- The lost batch in the same segment ------------------------------------------------------

  /** From a store that has not applied the acknowledged batch, recovery replays the file as it is. */
  lemma RecoversFile(crc: Crc, files: seq<File>, log: seq<Mutation>, lost: seq<Mutation>, next: seq<Mutation>, s: Store)
    requires AllEncodable(log + lost + next) && HoldsLog(crc, files, log + lost + next, [])
    requires |log + lost + next| <= I64_MAX
    requires Oldest(files) <= s.applied <= |log| && Holds(s, log[..s.applied])
    ensures var r := RecoverOf(crc, files, s, true);
            r.Ok? && Holds(r.value.0, log + lost + next)
  {
    hide RecoverOf, Holds, EncodeAll, Whole, HoldsLog;
    var written := log + lost + next;
    EmptyTail(crc, []);
    NothingEncodes(crc);
    assert [] <= EncodeAll(crc, []);
    NoMutations(written);
    assert written[..s.applied] == log[..s.applied];
    RecoveryCompletes(crc, files, written, [], [], s);
  }

  /** From a store that has applied it, recovery adds what the file holds past its position. */
  lemma RecoversPast(crc: Crc, files: seq<File>, log: seq<Mutation>, lost: seq<Mutation>, next: seq<Mutation>, s: Store)
    requires AllEncodable(log + lost + next) && HoldsLog(crc, files, log + lost + next, [])
    requires |log + lost + next| <= I64_MAX
    requires lost != [] && files != [] && files[0].first <= |log| && Holds(s, log + next)
    ensures var r := RecoverOf(crc, files, s, true);
            r.Ok? && Holds(r.value.0, log + next + (lost + next)[|next|..])
  {
    hide Holds, EncodeAll, Whole, HoldsLog, ScanFiles, ApplyTo;
    var written, pending := log + lost + next, (lost + next)[|next|..];
    EmptyTail(crc, []);
    NothingEncodes(crc);
    NoMutations(written);
    HoldsPosition(s, log + next);
    ScanWhole(crc, files, written, [], [], s.applied, written);
    assert From(written, s.applied, |written|) == pending by {
      assert written[|log| + |next|..] == pending;
    }
    HoldsMore(s, log + next, pending);
  }

  lemma BeginsWithAcknowledged(log: seq<Mutation>, lost: seq<Mutation>, next: seq<Mutation>)
    ensures log + next <= log + lost + next <==> next == (lost + next)[..|next|]
  {
    var written := log + lost + next;
    assert written == log + (lost + next);
    assert written[|log|..|log| + |next|] == (lost + next)[..|next|];
    if log + next <= written {
      assert next == (log + next)[|log|..] == written[..|log| + |next|][|log|..];
    }
  }

  // ---- The lost batch in a segment of its own ---------------------------------------------------

  lemma {:induction false} ScanPrefix(crc: Crc, files: seq<File>, more: seq<File>, applied: nat, n: nat)
    requires n < |files|
    ensures ScanFiles(crc, files + more, applied, n) == ScanFiles(crc, files, applied, n)
  {
    hide Parse, NewRecords;
    if n > 0 {
      ScanPrefix(crc, files, more, applied, n - 1);
      assert (files + more)[n - 1] == files[n - 1];
    }
  }

  /** The segments of a log that ends in a lost batch, and the segment of the batch written after it. */
  function Divided(sealed: seq<File>, first: nat, data: bytes, start: nat, last: bytes): (files: seq<File>)
    ensures |files| == |sealed| + 2
  {
    Listing(Listing(sealed, first, data), start, last)
  }

  /** The scan of a sealed segment that holds some of a lost batch. */
  lemma ScanLost(crc: Crc, sealed: seq<File>, first: nat, log: seq<Mutation>, lost: seq<Mutation>, left: bytes,
                 start: nat, last: bytes, applied: nat)
    requires AllEncodable(log) && AllEncodable(lost) && left <= EncodeAll(crc, lost) && first <= |log|
    requires HoldsLog(crc, Listing(sealed, first, EncodeAll(crc, log[first..]) + left), log, left)
    requires Oldest(Listing(sealed, first, EncodeAll(crc, log[first..]) + left)) <= applied
    ensures var files := Divided(sealed, first, EncodeAll(crc, log[first..]) + left, start, last);
            var k := Whole(crc, lost, |left|);
            var all := log + lost[..k];
            && AllEncodable(all)
            && Parse(crc, EncodeAll(crc, log[first..]) + left) ==
               Parsed(all[first..], |EncodeAll(crc, all[first..])|,
                      if EncodeAll(crc, lost[..k]) == left then Clean else Torn)
            && (EncodeAll(crc, lost[..k]) != left ==> ScanFiles(crc, files, applied, |sealed| + 1) == Err(CorruptLog))
            && (EncodeAll(crc, lost[..k]) == left ==>
                  && ScanFiles(crc, files, applied, |sealed| + 1).Ok?
                  && ScanFiles(crc, files, applied, |sealed| + 1).value.pending == From(all, applied, |all|))
  {
    hide EncodeAll, Whole, Parse, HoldsLog, NewRecords;
    var k := Whole(crc, lost, |left|);
    var all, data := log + lost[..k], EncodeAll(crc, log[first..]) + left;
    var part := Listing(sealed, first, data);
    var files := Divided(sealed, first, data, start, last);
    LogThenCutParses(crc, log[first..], lost, left);
    assert all[first..] == log[first..] + lost[..k];
    ListingEnds(sealed, first, data);
    ScanPrefix(crc, part, [File(start, last)], applied, |sealed|);
    ScanSealed(crc, part, log, left, applied, |sealed|);
    assert From(all, applied, first) == From(log, applied, first) by {
      if applied < first { assert all[applied..first] == log[applied..first]; }
    }
    FromExtends(all, applied, first, |all|);
    assert all[first..|all|] == all[first..];
    assert files[|sealed|] == File(first, data);
    AllEncodableJoins(log, lost, k);
  }

  lemma AllEncodableJoins(log: seq<Mutation>, lost: seq<Mutation>, k: nat)
    requires AllEncodable(log) && AllEncodable(lost) && k <= |lost|
    ensures AllEncodable(log + lost[..k])
  {
  }

  /** The scan of the whole: the segments number the acknowledged batch from where the lost one began. */
  lemma ScanDivided(crc: Crc, sealed: seq<File>, first: nat, log: seq<Mutation>, lost: seq<Mutation>, left: bytes,
                    next: seq<Mutation>, applied: nat)
    requires AllEncodable(log) && AllEncodable(lost) && AllEncodable(next) && left <= EncodeAll(crc, lost)
    requires first <= |log|
    requires HoldsLog(crc, Listing(sealed, first, EncodeAll(crc, log[first..]) + left), log, left)
    requires Oldest(Listing(sealed, first, EncodeAll(crc, log[first..]) + left)) <= applied
    ensures var files := Divided(sealed, first, EncodeAll(crc, log[first..]) + left, |log|, EncodeAll(crc, next));
            var k := Whole(crc, lost, |left|);
            var all := log + lost[..k];
            if EncodeAll(crc, lost[..k]) != left then ScanFiles(crc, files, applied, |files|) == Err(CorruptLog)
            else
              && ScanFiles(crc, files, applied, |files|).Ok?
              && var found := ScanFiles(crc, files, applied, |files|).value;
                 && found.seen == |log| + |next|
                 && found.pending == From(all, applied, |all|) + NewRecords(|log|, next, applied)
  {
    hide EncodeAll, Whole, Parse, HoldsLog, NewRecords;
    var data, last := EncodeAll(crc, log[first..]) + left, EncodeAll(crc, next);
    var files := Divided(sealed, first, data, |log|, last);
    ScanLost(crc, sealed, first, log, lost, left, |log|, last, applied);
    WholeLogParses(crc, next);
    assert files[|sealed| + 1] == File(|log|, last);
  }

  /** Recovery of divided segments: from where, and with what left of the lost batch, the log stands. */
  lemma RecoversDivided(crc: Crc, sealed: seq<File>, first: nat, log: seq<Mutation>, lost: seq<Mutation>, left: bytes,
                        next: seq<Mutation>, s: Store, included: bool)
    requires AllEncodable(log) && AllEncodable(lost) && AllEncodable(next) && left <= EncodeAll(crc, lost)
    requires first <= |log|
    requires HoldsLog(crc, Listing(sealed, first, EncodeAll(crc, log[first..]) + left), log, left)
    requires Oldest(Listing(sealed, first, EncodeAll(crc, log[first..]) + left)) <= s.applied
    requires next != [] && |log| + |lost| + |next| <= I64_MAX
    requires if included then Holds(s, log + next) else s.applied <= |log| && Holds(s, log[..s.applied])
    ensures var files := Divided(sealed, first, EncodeAll(crc, log[first..]) + left, |log|, EncodeAll(crc, next));
            var k := Whole(crc, lost, |left|);
            var r := RecoverOf(crc, files, s, true);
            if EncodeAll(crc, lost[..k]) != left then r == Err(CorruptLog)
            else
              && r.Ok?
              && (k == 0 || (included && k <= |next|) ==> Holds(r.value.0, log + next))
              && (!(k == 0 || (included && k <= |next|)) ==> r.value.0.applied != r.value.0.current.main)
  {
    hide EncodeAll, Whole, Parse, HoldsLog, Holds, ApplyTo, ScanFiles;
    var k := Whole(crc, lost, |left|);
    var all := log + lost[..k];
    ScanDivided(crc, sealed, first, log, lost, left, next, s.applied);
    if EncodeAll(crc, lost[..k]) == left {
      var pending := From(all, s.applied, |all|) + NewRecords(|log|, next, s.applied);
      if included {
        HoldsPosition(s, log + next);
        PendingIncluded(log, lost, k, next);
      } else {
        HoldsPosition(s, log[..s.applied]);
        PendingBefore(log, lost, k, next, s.applied);
        if k == 0 {
          CatchUpFrom(s, log, next);
        }
      }
      if pending != [] {
        ApplyCounts(s, pending, |log| + |next|);
      }
    }
  }

  lemma PendingIncluded(log: seq<Mutation>, lost: seq<Mutation>, k: nat, next: seq<Mutation>)
    requires k <= |lost| && next != []
    ensures var all := log + lost[..k];
            var pending := From(all, |log + next|, |all|) + NewRecords(|log|, next, |log + next|);
            |pending| == if k <= |next| then 0 else k - |next|
  {
  }

  lemma PendingBefore(log: seq<Mutation>, lost: seq<Mutation>, k: nat, next: seq<Mutation>, applied: nat)
    requires k <= |lost| && applied <= |log|
    ensures var all := log + lost[..k];
            var pending := From(all, applied, |all|) + NewRecords(|log|, next, applied);
            && |pending| == |log| - applied + k + |next|
            && (k == 0 ==> pending == (log + next)[applied..])
  {
    assert lost[..0] == [];
    NoMutations(log);
  }

  lemma CatchUpFrom(s: Store, log: seq<Mutation>, next: seq<Mutation>)
    requires s.applied <= |log| && Holds(s, log[..s.applied]) && next != [] && |log| + |next| <= I64_MAX
    ensures s.current.main == s.applied && (log + next)[s.applied..] != []
    ensures s.current.main + |(log + next)[s.applied..]| <= I64_MAX
    ensures Holds(ApplyTo(s, (log + next)[s.applied..], |log| + |next|), log + next)
  {
    hide Holds, ApplyTo;
    assert (log + next)[..s.applied] == log[..s.applied];
    CatchUp(s, log + next);
    assert From(log + next, s.applied, |log + next|) == (log + next)[s.applied..];
  }

  // ---- Where the machine is after both writes ----------------------------------------------------

  /** A batch lost to its caller, its bytes in the file, in a run otherwise prudent. */
  ghost predicate Loses(cfg: Config, n: Node, lost: seq<Mutation>, fault: RetireFault) {
    && Invariant(cfg, n) && n.phase.Running? && !n.phase.drifted
    && lost != [] && HasRoom(n.phase.m, lost) && Drifts(n.phase.m, lost, fault)
  }

  lemma AfterLosing(cfg: Config, n: Node, lost: seq<Mutation>, fault: RetireFault)
    requires Loses(cfg, n, lost, fault)
    ensures var d := RetireStep(cfg, n, lost, fault);
            var log := Flatten(n.trace);
            && d.phase.Running? && Flatten(d.trace) == log && AllEncodable(lost) && AllEncodable(log)
            && LogHeld(cfg, d.phase.m, log, EncodeAll(cfg.crc, lost), true)
            && d.phase.m.active.data == EncodeAll(cfg.crc, log[d.phase.m.first..]) + EncodeAll(cfg.crc, lost)
            && !d.phase.m.active.poisoned
            && d.phase.m.store == n.phase.m.store && d.phase.m.commits == n.phase.m.commits
            && Holds(d.phase.m.store, log)
            && AllRestorable(n.phase.m.commits, log, Oldest(d.phase.m.Files()))
            && |d.trace| == |n.trace| + 1
  {
    hide HoldsLog, Holds, AllRestorable, EncodeAll, ApplyTo, Flatten, NameTaken, RetireStep, AllEncodable;
    var tail :| RunningHolds(cfg, n, tail);
    var m, log := n.phase.m, Flatten(n.trace);
    HoldsPosition(m.store, log);
    ReadyHolds(cfg, n, tail);
    FailedStep(cfg, n, lost, fault);
    var torn := AppendExposes(cfg, ReadyFor(m), log, lost, AppendOf(fault));
    var d := RetireStep(cfg, n, lost, fault);
    assert torn == EncodeAll(cfg.crc, lost) by { assert |torn| == |EncodeAll(cfg.crc, lost)|; }
    ActiveHolds(cfg.crc, d.phase.m.sealed, d.phase.m.first, d.phase.m.active.data, log, torn);
    OneMoreEntry(n.trace, Last(d.trace));
    assert LogMachine.Kept(Last(d.trace)) == [];
    NoMutations(log);
  }

  /** The next batch was written, flushed, applied and acknowledged. */
  ghost predicate Acknowledges(cfg: Config, d: Node, next: seq<Mutation>, fault: RetireFault)
    requires d.phase.Running?
  {
    var a := RetireStep(cfg, d, next, fault);
    HasRoom(d.phase.m, next) && |a.trace| > |d.trace| && Last(a.trace).acked
  }

  lemma AcknowledgedMeans(cfg: Config, d: Node, next: seq<Mutation>, fault: RetireFault)
    requires d.phase.Running? && Acknowledges(cfg, d, next, fault)
    ensures next != [] && Wrote(d.phase.m, next, fault)
    ensures AppendOk(ReadyFor(d.phase.m).active, AppendOf(fault)) && !fault.ApplyFails?
  {
    hide EncodeAll, ApplyTo, NameTaken, AllEncodable, AppendTo, Drifts;
  }

  /** Whether the acknowledged batch went to a new segment, the lost one having filled its own. */
  predicate Divides(d: Node)
    requires d.phase.Running?
  {
    d.phase.m.active.written >= d.phase.m.active.limit
  }

  lemma AfterAcknowledging(cfg: Config, n: Node, lost: seq<Mutation>, first: RetireFault, next: seq<Mutation>,
                           second: RetireFault)
    requires Loses(cfg, n, lost, first) && Acknowledges(cfg, RetireStep(cfg, n, lost, first), next, second)
    ensures var d := RetireStep(cfg, n, lost, first);
            var a := RetireStep(cfg, d, next, second);
            var (m, log) := (d.phase.m, Flatten(n.trace));
            && next != [] && AllEncodable(next) && HasRoom(m, next)
            && (Divides(d) ==> !NameTaken(m, |log|)) && a.phase.Running?
            && var s := ApplyTo(m.store, next, |log| + |next|);
               a.phase.m == Committed(WroteTo(cfg.crc, m, next, NoFault), s)
  {
    hide EncodeAll, ApplyTo, AppendTo, RetireStep, Flatten, NameTaken, LogHeld, Holds, Invariant, Drifts;
    var d := RetireStep(cfg, n, lost, first);
    AfterLosing(cfg, n, lost, first);
    HoldsPosition(d.phase.m.store, Flatten(n.trace));
    AcknowledgedMeans(cfg, d, next, second);
    AcknowledgedStep(cfg, d, next, second);
  }

  /** In one segment: everything is flushed, and the file holds the lost batch between. */
  lemma OneSegment(cfg: Config, d: Node, log: seq<Mutation>, lost: seq<Mutation>, next: seq<Mutation>, s: Store,
                   cuts: seq<nat>)
    requires d.phase.Running? && AllEncodable(log) && AllEncodable(lost) && AllEncodable(next)
    requires LogHeld(cfg, d.phase.m, log, EncodeAll(cfg.crc, lost), true) && !d.phase.m.active.poisoned && !Divides(d)
    requires d.phase.m.active.data == EncodeAll(cfg.crc, log[d.phase.m.first..]) + EncodeAll(cfg.crc, lost)
    ensures var m := Committed(WroteTo(cfg.crc, d.phase.m, next, NoFault), s);
            && AfterLoss(m.Files(), m.Flushed(), cuts) == m.Files() && m.Files() != []
            && Oldest(m.Files()) == Oldest(d.phase.m.Files())
            && AllEncodable(log + lost + next) && HoldsLog(cfg.crc, m.Files(), log + lost + next, [])
  {
    hide EncodeAll, HoldsLog;
    var was := d.phase.m;
    var m := Committed(WroteTo(cfg.crc, was, next, NoFault), s);
    ActiveHolds(cfg.crc, was.sealed, was.first, was.active.data, log, EncodeAll(cfg.crc, lost));
    LogGrows(cfg.crc, was.sealed, was.first, EncodeAll(cfg.crc, log[was.first..]), log, lost, []);
    NoBytes(was.active.data);
    LogGrows(cfg.crc, was.sealed, was.first, was.active.data, log + lost, next, []);
    NoBytes(was.active.data + EncodeAll(cfg.crc, next));
    assert SealedFlushed(m.Files(), m.Flushed());
    NothingToLose(m.Files(), m.Flushed(), cuts);
    SameOldest(was.sealed, was.first, was.active.data, m.active.data);
  }

  /** In two: what of the lost batch was not flushed before its segment was sealed may still be lost. */
  lemma TwoSegments(cfg: Config, d: Node, log: seq<Mutation>, lost: seq<Mutation>, next: seq<Mutation>, s: Store,
                    cuts: seq<nat>)
    returns (left: bytes)
    requires d.phase.Running? && AllEncodable(log) && AllEncodable(lost) && AllEncodable(next)
    requires d.phase.m.store.applied == |log|
    requires LogHeld(cfg, d.phase.m, log, EncodeAll(cfg.crc, lost), true) && !d.phase.m.active.poisoned && Divides(d)
    requires d.phase.m.active.data == EncodeAll(cfg.crc, log[d.phase.m.first..]) + EncodeAll(cfg.crc, lost)
    ensures left <= EncodeAll(cfg.crc, lost) && d.phase.m.first <= |log|
    ensures var m, was := Committed(WroteTo(cfg.crc, d.phase.m, next, NoFault), s), d.phase.m;
            var data := EncodeAll(cfg.crc, log[was.first..]) + left;
            && AfterLoss(m.Files(), m.Flushed(), cuts) ==
               Divided(was.sealed, was.first, data, |log|, EncodeAll(cfg.crc, next))
            && HoldsLog(cfg.crc, Listing(was.sealed, was.first, data), log, left)
            && Oldest(Listing(was.sealed, was.first, data)) == Oldest(was.Files())
  {
    hide EncodeAll, HoldsLog, SurvivingBytes;
    var was := d.phase.m;
    var m := Committed(WroteTo(cfg.crc, was, next, NoFault), s);
    var front := EncodeAll(cfg.crc, log[was.first..]);
    left := SurvivingFront(front, EncodeAll(cfg.crc, lost), was.active.synced, Nth(cuts, |was.sealed|));
    TailChanges(cfg.crc, was.sealed, was.first, was.active.data, log, EncodeAll(cfg.crc, lost), left);
    SameOldest(was.sealed, was.first, was.active.data, front + left);
    NothingLostOf(EncodeAll(cfg.crc, next), Nth(cuts, |was.sealed| + 1));
    SealedSurvive(was.sealed, was.flushed, cuts);
    WholeLastSegment(cfg, was, next, s);
    assert AfterLoss(m.Files(), m.Flushed(), cuts) ==
           Divided(was.sealed, was.first, front + left, |log|, EncodeAll(cfg.crc, next));
  }

  lemma NothingLostOf(data: bytes, cut: nat)
    ensures SurvivingBytes(data, |data|, cut) == data
  {
  }

  lemma SealedSurvive(sealed: seq<File>, flushed: seq<nat>, cuts: seq<nat>)
    requires SealedFlushed(sealed, flushed)
    ensures forall i :: 0 <= i < |sealed| ==> SurvivingBytes(sealed[i].data, flushed[i], Nth(cuts, i)) == sealed[i].data
  {
  }

  lemma WholeLastSegment(cfg: Config, was: Machine, next: seq<Mutation>, s: Store)
    requires AllEncodable(next) && was.active.written >= was.active.limit && |was.flushed| == |was.sealed|
    ensures var m := Committed(WroteTo(cfg.crc, was, next, NoFault), s);
            && m.Files() == was.Files() + [File(was.store.applied, EncodeAll(cfg.crc, next))]
            && m.Flushed() == was.Flushed() + [|EncodeAll(cfg.crc, next)|]
  {
    hide EncodeAll;
    assert [] + EncodeAll(cfg.crc, next) == EncodeAll(cfg.crc, next);
  }

  // ---- When the acknowledged log stands -------------------------------------------------------------

  /** What a power loss and recovery make of a machine. */
  function Recovered(cfg: Config, n: Node, cuts: seq<nat>, restored: nat): Node {
    RecoverStep(cfg, CrashStep(cfg, n, cuts, restored), true)
  }

  lemma RecoveredIs(cfg: Config, a: Node, cuts: seq<nat>, restored: nat, s: Store)
    requires a.phase.Running? && restored < |a.phase.m.commits| && OpenOf(a.phase.m.commits[restored]) == Ok(s)
    ensures var files := AfterLoss(a.phase.m.Files(), a.phase.m.Flushed(), cuts);
            var r := RecoverOf(cfg.crc, files, s, true);
            var up := Recovered(cfg, a, cuts, restored);
            && (r.Ok? ==> up.phase.Replayed? && up.phase.store == r.value.0)
            && (r == Err(CorruptLog) ==> up.phase.Refused?)
  {
    hide RecoverOf, OpenOf, AfterLoss, Settled;
  }

  /** The store a power loss restores: one that has applied the acknowledged batch, or one from before. */
  lemma RestoredStore(m: Machine, log: seq<Mutation>, next: seq<Mutation>, oldest: nat, restored: nat)
    returns (s: Store)
    requires Holds(m.store, log) && next != [] && |log| + |next| <= I64_MAX && AllEncodable(log + next)
    requires AllRestorable(m.commits, log, oldest) && restored <= |m.commits|
    ensures var after := ApplyTo(m.store, next, |log| + |next|);
            var commits := m.commits + [after.backend];
            && OpenOf(commits[restored]) == Ok(s) && oldest <= s.applied
            && if restored == |m.commits| then Holds(s, log + next)
               else s.applied <= |log| && Holds(s, log[..s.applied])
  {
    hide Holds, ApplyTo, OpenOf;
    HoldsPosition(m.store, log);
    if restored == |m.commits| {
      s := ApplyTo(m.store, next, |log| + |next|);
      HoldsMore(m.store, log, next);
      EncodableIsStorable(log + next);
      HoldsReopens(s, log + next);
      HoldsPosition(s, log + next);
      assert Restorable(m.commits[0], log, oldest);
    } else {
      assert Restorable(m.commits[restored], log, oldest);
      s := OpenOf(m.commits[restored]).value;
    }
  }

  /**
   One segment holds both batches: the acknowledged log stands after a power loss and
   recovery if and only if the restored store had applied the acknowledged batch, or the
   file reads it where it was numbered.
   */
  lemma StandsInOneSegment(cfg: Config, n: Node, lost: seq<Mutation>, first: RetireFault, next: seq<Mutation>,
                           second: RetireFault, cuts: seq<nat>, restored: nat)
    requires Loses(cfg, n, lost, first) && |Flatten(n.trace)| + |lost| + |next| <= I64_MAX
    requires var d := RetireStep(cfg, n, lost, first);
             && Acknowledges(cfg, d, next, second) && !Divides(d)
             && restored < |RetireStep(cfg, d, next, second).phase.m.commits|
    ensures var log := Flatten(n.trace);
            var a := RetireStep(cfg, RetireStep(cfg, n, lost, first), next, second);
            var up := Recovered(cfg, a, cuts, restored);
            var included := restored == |n.phase.m.commits|;
            && up.phase.Replayed?
            && Holds(up.phase.store, if included then log + next + (lost + next)[|next|..] else log + lost + next)
            && (Stands(up, log + next) <==> included || next == (lost + next)[..|next|])
  {
    hide EncodeAll, ApplyTo, RetireStep, Flatten, LogHeld, Holds, Invariant, Drifts, Acknowledges, HoldsLog, RecoverOf,
      Recovered, AllRestorable, Stands, NameTaken, HasRoom;
    var log, d := Flatten(n.trace), RetireStep(cfg, n, lost, first);
    AfterLosing(cfg, n, lost, first);
    AfterAcknowledging(cfg, n, lost, first, next, second);
    var a, m := RetireStep(cfg, d, next, second), d.phase.m;
    HoldsPosition(m.store, log);
    var after := ApplyTo(m.store, next, |log| + |next|);
    JoinsEncodable(log, lost, next);
    var s := RestoredStore(m, log, next, Oldest(m.Files()), restored);
    OneSegment(cfg, d, log, lost, next, after, cuts);
    RecoveredIs(cfg, a, cuts, restored, s);
    var up := Recovered(cfg, a, cuts, restored);
    if restored == |m.commits| {
      FirstIsIn(cfg, m, log, EncodeAll(cfg.crc, lost));
      RecoversPast(cfg.crc, a.phase.m.Files(), log, lost, next, s);
      StandsOn(up, log + next, log + next + (lost + next)[|next|..]);
    } else {
      RecoversFile(cfg.crc, a.phase.m.Files(), log, lost, next, s);
      StandsOn(up, log + next, log + lost + next);
      BeginsWithAcknowledged(log, lost, next);
    }
  }

  lemma JoinsEncodable(log: seq<Mutation>, lost: seq<Mutation>, next: seq<Mutation>)
    requires AllEncodable(log) && AllEncodable(lost) && AllEncodable(next)
    ensures AllEncodable(log + next) && AllEncodable(log + lost + next)
    ensures AllEncodable(log + next + (lost + next)[|next|..])
  {
  }

  lemma FirstIsIn(cfg: Config, m: Machine, log: seq<Mutation>, tail: bytes)
    requires LogHeld(cfg, m, log, tail, true)
    ensures m.Files()[0].first <= |log|
  {
    hide EncodeAll;
    FirstsRise(cfg.crc, m.Files(), log, tail, |m.Files()| - 1);
  }

  /**
   The lost batch filled its segment and the acknowledged one began another: recovery
   refuses the log if the loss cut a record of the lost batch; otherwise the acknowledged
   log stands if and only if no record of the lost batch is left, or the restored store had
   applied the acknowledged batch and no more records of the lost one are left than it has.
   */
  lemma StandsInTwoSegments(cfg: Config, n: Node, lost: seq<Mutation>, first: RetireFault, next: seq<Mutation>,
                            second: RetireFault, cuts: seq<nat>, restored: nat)
    requires Loses(cfg, n, lost, first) && |Flatten(n.trace)| + |lost| + |next| <= I64_MAX
    requires var d := RetireStep(cfg, n, lost, first);
             && Acknowledges(cfg, d, next, second) && Divides(d)
             && restored < |RetireStep(cfg, d, next, second).phase.m.commits|
    ensures var log := Flatten(n.trace);
            var d := RetireStep(cfg, n, lost, first);
            var a := RetireStep(cfg, d, next, second);
            var up := Recovered(cfg, a, cuts, restored);
            var included := restored == |n.phase.m.commits|;
            var files := AfterLoss(a.phase.m.Files(), a.phase.m.Flushed(), cuts);
            && |files| >= 2
            && var sealed := Parse(cfg.crc, files[|files| - 2].data);
               var ends := d.phase.m.first + |sealed.records|;
               && ends >= |log|
               && (up.phase.Refused? <==> !sealed.end.Clean?)
               && (Stands(up, log + next) <==>
                  sealed.end.Clean? && (ends == |log| || (included && ends <= |log| + |next|)))
  {
    hide EncodeAll, ApplyTo, RetireStep, Flatten, LogHeld, Holds, Invariant, Drifts, Acknowledges, HoldsLog, RecoverOf,
      Recovered, AllRestorable, Stands, NameTaken, Parse, Whole, AfterLoss, HasRoom;
    var log, d := Flatten(n.trace), RetireStep(cfg, n, lost, first);
    AfterLosing(cfg, n, lost, first);
    AfterAcknowledging(cfg, n, lost, first, next, second);
    var a, m := RetireStep(cfg, d, next, second), d.phase.m;
    HoldsPosition(m.store, log);
    var after := ApplyTo(m.store, next, |log| + |next|);
    JoinsEncodable(log, lost, next);
    var s := RestoredStore(m, log, next, Oldest(m.Files()), restored);
    var left := TwoSegments(cfg, d, log, lost, next, after, cuts);
    RecoveredIs(cfg, a, cuts, restored, s);
    var up := Recovered(cfg, a, cuts, restored);
    var k, included := Whole(cfg.crc, lost, |left|), restored == |m.commits|;
    ScanLost(cfg.crc, m.sealed, m.first, log, lost, left, |log|, EncodeAll(cfg.crc, next), s.applied);
    RecoversDivided(cfg.crc, m.sealed, m.first, log, lost, left, next, s, included);
    RecordsFrom(log, lost, k, m.first);
    if EncodeAll(cfg.crc, lost[..k]) != left {
      RefusedStandsNot(up, log + next);
    } else if k == 0 || (included && k <= |next|) {
      StandsOn(up, log + next, log + next);
    } else {
      DisplacedStandsNot(up, log + next);
    }
  }

  lemma RecordsFrom(log: seq<Mutation>, lost: seq<Mutation>, k: nat, first: nat)
    requires k <= |lost| && first <= |log|
    ensures first + |(log + lost[..k])[first..]| == |log| + k
  {
  }

  lemma RefusedStandsNot(up: Node, acked: seq<Mutation>)
    requires up.phase.Refused?
    ensures !Stands(up, acked)
  {
  }

  /** What decides whether the acknowledged log stands: the rollover, the restored commit, and the bytes left. */
  predicate Retrievable(cfg: Config, n: Node, d: Node, a: Node, lost: seq<Mutation>, next: seq<Mutation>,
                        cuts: seq<nat>, restored: nat)
    requires n.phase.Running? && d.phase.Running? && a.phase.Running?
  {
    var included := restored == |n.phase.m.commits|;
    if !Divides(d) then included || next == (lost + next)[..|next|]
    else
      var files := AfterLoss(a.phase.m.Files(), a.phase.m.Flushed(), cuts);
      && |files| >= 2
      && var sealed := Parse(cfg.crc, files[|files| - 2].data);
         var ends := d.phase.m.first + |sealed.records|;
         sealed.end.Clean? && (ends == |Flatten(n.trace)| || (included && ends <= |Flatten(n.trace)| + |next|))
  }

  lemma RetrievableIsExact(cfg: Config, n: Node, lost: seq<Mutation>, first: RetireFault, next: seq<Mutation>,
                           second: RetireFault, cuts: seq<nat>, restored: nat)
    requires Loses(cfg, n, lost, first) && |Flatten(n.trace)| + |lost| + |next| <= I64_MAX
    requires var d := RetireStep(cfg, n, lost, first);
             Acknowledges(cfg, d, next, second) && restored < |CommitsOf(RetireStep(cfg, d, next, second).phase)|
    ensures var d := RetireStep(cfg, n, lost, first);
            var a := RetireStep(cfg, d, next, second);
            && a.phase.Running? && Flatten(a.trace) == Flatten(n.trace) + next
            && (Stands(Recovered(cfg, a, cuts, restored), Flatten(a.trace)) <==>
                Retrievable(cfg, n, d, a, lost, next, cuts, restored))
  {
    hide RetireStep, Flatten, Invariant, Acknowledges, Recovered, Stands, Drifts, HasRoom, AfterLoss, Parse, LogHeld,
      Holds, EncodeAll, ApplyTo, AllEncodable, NameTaken, AllRestorable;
    var d := RetireStep(cfg, n, lost, first);
    AfterLosing(cfg, n, lost, first);
    AfterAcknowledging(cfg, n, lost, first, next, second);
    AcknowledgedTrace(cfg, d, next, second);
    if Divides(d) {
      StandsInTwoSegments(cfg, n, lost, first, next, second, cuts, restored);
    } else {
      StandsInOneSegment(cfg, n, lost, first, next, second, cuts, restored);
    }
  }

  /**
   After any prudent run, a batch lost to a failed flush or apply, a batch acknowledged
   after it, a power loss and a recovery, the acknowledged log stands, each mutation at its
   revision, if and only if it is retrievable.
   */
  lemma DriftIsExact(cfg: Config, steps: seq<Step>, lost: seq<Mutation>, first: RetireFault, next: seq<Mutation>,
                     second: RetireFault, cuts: seq<nat>, restored: nat)
    requires Prudent(cfg, steps) && Volume(steps) + |lost| + |next| <= I64_MAX
    requires Exec(cfg, steps).phase.Running? && !Exec(cfg, steps).phase.drifted
    requires lost != [] && HasRoom(Exec(cfg, steps).phase.m, lost) && Drifts(Exec(cfg, steps).phase.m, lost, first)
    requires var d := RetireStep(cfg, Exec(cfg, steps), lost, first);
             && d.phase.Running? && Acknowledges(cfg, d, next, second)
             && restored < |CommitsOf(RetireStep(cfg, d, next, second).phase)|
    ensures var n := Exec(cfg, steps);
            var d := RetireStep(cfg, n, lost, first);
            var a := RetireStep(cfg, d, next, second);
            var up := Exec(cfg, steps + [Step.Retire(lost, first)] + [Step.Retire(next, second)]
                                + [Step.Crash(cuts, restored)] + [Step.Recover(true)]);
            && a.phase.Running? && Flatten(a.trace) == Flatten(n.trace) + next
            && (Stands(up, Flatten(a.trace)) <==> Retrievable(cfg, n, d, a, lost, next, cuts, restored))
  {
    hide RetireStep, Flatten, Invariant, Acknowledges, Recovered, Stands, Exec, Prudent, Drifts, HasRoom, Retrievable,
      CommitsOf;
    var n := Exec(cfg, steps);
    RunKeeps(cfg, steps);
    FlattenFits(n.trace);
    RunOn(cfg, steps, lost, first, next, second, cuts, restored);
    RetrievableIsExact(cfg, n, lost, first, next, second, cuts, restored);
  }

  lemma AcknowledgedTrace(cfg: Config, d: Node, next: seq<Mutation>, fault: RetireFault)
    requires d.phase.Running? && Acknowledges(cfg, d, next, fault)
    ensures Flatten(RetireStep(cfg, d, next, fault).trace) == Flatten(d.trace) + next
  {
    hide Flatten, RetireBatch, Drifts;
    LogGuarantees.LogGrowsByBatch(cfg, d, next, fault);
  }

  lemma RunOn(cfg: Config, steps: seq<Step>, lost: seq<Mutation>, first: RetireFault, next: seq<Mutation>,
              second: RetireFault, cuts: seq<nat>, restored: nat)
    requires Exec(cfg, steps).phase.Running?
    requires RetireStep(cfg, Exec(cfg, steps), lost, first).phase.Running?
    ensures Exec(cfg, steps + [Step.Retire(lost, first)] + [Step.Retire(next, second)]
                      + [Step.Crash(cuts, restored)] + [Step.Recover(true)]) ==
            Recovered(cfg, RetireStep(cfg, RetireStep(cfg, Exec(cfg, steps), lost, first), next, second),
                      cuts, restored)
  {
    hide Exec, RetireStep, CrashStep, RecoverStep;
    var one := steps + [Step.Retire(lost, first)];
    var two := one + [Step.Retire(next, second)];
    LogGuarantees.OneMoreStep(cfg, steps, Step.Retire(lost, first));
    LogGuarantees.OneMoreStep(cfg, one, Step.Retire(next, second));
    LogGuarantees.OneMoreStep(cfg, two, Step.Crash(cuts, restored));
    LogGuarantees.OneMoreStep(cfg, two + [Step.Crash(cuts, restored)], Step.Recover(true));
  }
}
