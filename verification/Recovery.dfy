/**
 Recovery: replaying the records a store has not applied, locating the end of the log,
 and refusing a log that cannot be what was written.
 */
module Recovery {
  import opened Wrappers
  import opened Sequences
  import opened ByteStrings
  import opened Revisions
  import opened Mutations
  import opened Frames
  import opened LogRecords
  import opened Stores
  import opened LogStores
  import opened KvStores

  /** A segment file, named by the position of its first record. */
  datatype File = File(first: nat, data: bytes)

  /** The segment new records append to, and the bytes of it holding complete records. */
  datatype Tail = Tail(first: nat, valid: nat)

  /** `Exhausted` stands for the panic once revisions run out. */
  datatype RecoverError = CorruptLog | ApplyFailed | Exhausted

  datatype Progress = Progress(seen: nat, pending: seq<Mutation>, tail: Option<Tail>)

  /** The records, numbered from `first + 1`, that lie past `applied`. */
  function NewRecords(first: nat, records: seq<Mutation>, applied: nat): seq<Mutation> {
    if applied <= first then records
    else if |records| <= applied - first then []
    else records[applied - first..]
  }

  /** What scanning the first `n` segment files finds. */
  function ScanFiles(crc: Crc, files: seq<File>, applied: nat, n: nat): Result<Progress, RecoverError>
    requires n <= |files|
  {
    if n == 0 then Ok(Progress(0, [], None))
    else
      match ScanFiles(crc, files, applied, n - 1)
      case Err(e) => Err(e)
      case Ok(before) =>
        var f := files[n - 1];
        var p := Parse(crc, f.data);
        if p.end.Damaged? || (p.end.Torn? && n != |files|) then Err(CorruptLog)
        else Ok(Progress(f.first + |p.records|,
                         before.pending + NewRecords(f.first, p.records, applied),
                         Some(Tail(f.first, p.valid))))
  }

  /** The store recovery leaves, and where the log ends. */
  function RecoverOf(crc: Crc, files: seq<File>, s: Store, applyOk: bool): Result<(Store, Option<Tail>), RecoverError> {
    match ScanFiles(crc, files, s.applied, |files|)
    case Err(e) => Err(e)
    case Ok(found) =>
      if found.seen < s.applied then Err(CorruptLog)
      else if found.pending == [] then Ok((s, found.tail))
      else if s.current.main + |found.pending| > I64_MAX || found.seen >= U64_END then Err(Exhausted)
      else if !applyOk then Err(ApplyFailed)
      else Ok((ApplyTo(s, found.pending, found.seen), found.tail))
  }

  // ---- The loops of recovery ----------------------------------------------------------

  /** Reads one segment's records, keeping those past `applied`; fails unless they end cleanly or may be torn. */
  method ReplaySegment(crc: Crc, f: File, last: bool, applied: nat, before: seq<Mutation>)
    returns (ok: bool, seen: nat, pending: seq<Mutation>, valid: nat)
    ensures var p := Parse(crc, f.data);
            && ok == !(p.end.Damaged? || (p.end.Torn? && !last))
            && (ok ==> seen == f.first + |p.records| && valid == p.valid
                       && pending == before + NewRecords(f.first, p.records, applied))
  {
    NoNewRecords(f.first, applied);
    hide DecodeRecord, NewRecords;
    ghost var whole, done := Parse(crc, f.data), [];
    var rest := f.data;
    seen, pending, valid := f.first, before, 0;
    while rest != []
      invariant whole.records == done + Parse(crc, rest).records
      invariant whole.valid == valid + Parse(crc, rest).valid && whole.end == Parse(crc, rest).end
      invariant seen == f.first + |done| && pending == before + NewRecords(f.first, done, applied)
      decreases |rest|
    {
      match DecodeRecord(crc, rest) {
        case Ok((mutation, width)) =>
          seen := seen + 1;
          Reassociate(done, mutation, Parse(crc, rest[width..]).records);
          NewRecordsSnoc(f.first, done, mutation, applied);
          if seen > applied {
            pending := pending + [mutation];
          }
          done := done + [mutation];
          valid := valid + width;
          rest := rest[width..];
        case Err(Truncated) =>
          assert whole.records == done;
          return last, seen, pending, valid;
        case Err(Corrupt) =>
          return false, seen, pending, valid;
      }
    }
    assert whole.records == done;
    ok := true;
  }

  lemma NoNewRecords(first: nat, applied: nat)
    ensures NewRecords(first, [], applied) == []
  {
  }

  lemma NewRecordsSnoc(first: nat, done: seq<Mutation>, m: Mutation, applied: nat)
    ensures NewRecords(first, done + [m], applied) ==
            NewRecords(first, done, applied) + if first + |done| + 1 > applied then [m] else []
  {
  }

  lemma {:induction false} ScanStaysFailed(crc: Crc, files: seq<File>, applied: nat, n: nat, m: nat)
    requires n <= m <= |files| && ScanFiles(crc, files, applied, n) == Err(CorruptLog)
    ensures ScanFiles(crc, files, applied, m) == Err(CorruptLog)
  {
    if n < m {
      ScanStaysFailed(crc, files, applied, n, m - 1);
    }
  }

  /** Walks the segments in order, gathering what lies past `applied`. */
  method ScanLog(crc: Crc, files: seq<File>, applied: nat) returns (result: Result<Progress, RecoverError>)
    ensures result == ScanFiles(crc, files, applied, |files|)
  {
    hide Parse, NewRecords;
    var seen: nat, pending, tail := 0, [], None;
    for index := 0 to |files|
      invariant ScanFiles(crc, files, applied, index) == Ok(Progress(seen, pending, tail))
    {
      var ok, valid;
      ok, seen, pending, valid := ReplaySegment(crc, files[index], index == |files| - 1, applied, pending);
      if !ok {
        ScanStaysFailed(crc, files, applied, index + 1, |files|);
        return Err(CorruptLog);
      }
      tail := Some(Tail(files[index].first, valid));
    }
    return Ok(Progress(seen, pending, tail));
  }

  /** Replays what `store` has not applied and locates the end of the log. */
  method Recover(crc: Crc, files: seq<File>, store: KvStore, applyOk: bool)
    returns (result: Result<Option<Tail>, RecoverError>)
    requires store.Valid()
    modifies store, store.engine, store.index
    ensures store.Valid()
    ensures var r := RecoverOf(crc, files, old(store.View()), applyOk);
            && (r.Ok? ==> result == Ok(r.value.1) && store.View() == r.value.0)
            && (r.Err? ==> result == Err(r.error) && store.View() == old(store.View()))
            && store.engine.commits ==
               old(store.engine.commits) + if store.View() != old(store.View()) then [store.View().backend] else []
  {
    hide ApplyTo, ScanFiles;
    var found := ScanLog(crc, files, store.applied);
    if found.Err? {
      return Err(found.error);
    }
    var Progress(seen, pending, tail) := found.value;
    if seen < store.applied {
      return Err(CorruptLog);
    }
    if pending != [] {
      if store.current.main + |pending| > I64_MAX || seen >= U64_END {
        return Err(Exhausted);
      }
      ApplyMoves(store.View(), pending, seen);
      var applied := store.Apply(pending, seen, applyOk);
      if applied.Err? {
        return Err(ApplyFailed);
      }
    }
    return Ok(tail);
  }

  lemma ApplyMoves(s: Store, batch: seq<Mutation>, upto: nat)
    requires batch != [] && s.current.main + |batch| <= I64_MAX && upto < U64_END
    ensures ApplyTo(s, batch, upto) != s
  {
    hide WithRecords, Recorded;
  }

  // ---- What a log on disk holds -------------------------------------------------------

  /** The files between them hold the log, in order, the last also holding `tail`. */
  ghost predicate HoldsLog(crc: Crc, files: seq<File>, log: seq<Mutation>, tail: bytes) {
    && AllEncodable(log)
    && (files == [] ==> log == [] && tail == [])
    && (files != [] ==>
          && Last(files).first <= |log|
          && Last(files).data == EncodeAll(crc, log[Last(files).first..]) + tail)
    && (forall i :: 0 <= i < |files| - 1 ==> Sealed(crc, files, log, i))
  }

  /** A segment with a successor holds exactly the records up to where that one starts. */
  ghost predicate Sealed(crc: Crc, files: seq<File>, log: seq<Mutation>, i: nat)
    requires i + 1 < |files| && AllEncodable(log)
  {
    && files[i].first < files[i + 1].first <= |log|
    && files[i].data == EncodeAll(crc, log[files[i].first..files[i + 1].first])
  }

  /** The records of a log past a position. */
  function From(log: seq<Mutation>, applied: nat, upto: nat): seq<Mutation>
    requires upto <= |log|
  {
    if applied >= upto then [] else log[applied..upto]
  }

  lemma FromExtends(log: seq<Mutation>, applied: nat, x: nat, y: nat)
    requires x <= y <= |log| && (applied <= x || From(log, applied, x) == [])
    ensures From(log, applied, x) + NewRecords(x, log[x..y], applied) == From(log, applied, y)
  {
    if applied <= x {
      assert log[applied..y] == log[applied..x] + log[x..y];
    } else if applied < y {
      assert log[x..y][applied - x..] == log[applied..y];
    }
  }

  lemma {:induction false} FirstsRise(crc: Crc, files: seq<File>, log: seq<Mutation>, tail: bytes, n: nat)
    requires HoldsLog(crc, files, log, tail) && n < |files|
    ensures files[0].first <= files[n].first <= |log|
  {
    if n > 0 {
      assert Sealed(crc, files, log, n - 1);
      FirstsRise(crc, files, log, tail, n - 1);
    } else if |files| > 1 {
      assert Sealed(crc, files, log, 0);
    }
  }

  /** Scanning the sealed segments finds their records, with nothing missing or repeated. */
  lemma {:induction false} ScanSealed(crc: Crc, files: seq<File>, log: seq<Mutation>, tail: bytes, applied: nat, n: nat)
    requires HoldsLog(crc, files, log, tail) && n < |files| && files[0].first <= applied
    requires files[n].first <= |log|
    ensures ScanFiles(crc, files, applied, n).Ok?
    ensures ScanFiles(crc, files, applied, n).value.pending == From(log, applied, files[n].first)
  {
    if n > 0 {
      assert Sealed(crc, files, log, n - 1);
      ScanSealed(crc, files, log, tail, applied, n - 1);
      var x, y := files[n - 1].first, files[n].first;
      WholeLogParses(crc, log[x..y]);
      FromExtends(log, applied, x, y);
    }
  }

  /** The last segment's records, the complete ones of the tail included. */
  lemma LastSegmentParses(crc: Crc, log: seq<Mutation>, more: seq<Mutation>, tail: bytes, first: nat)
    requires AllEncodable(log) && AllEncodable(more) && tail <= EncodeAll(crc, more) && first <= |log|
    ensures var all := log + more[..Whole(crc, more, |tail|)];
            var p := Parse(crc, EncodeAll(crc, log[first..]) + tail);
            && AllEncodable(all) && !p.end.Damaged?
            && p.records == all[first..|all|] && p.valid == |EncodeAll(crc, all[first..])|
  {
    hide EncodeAll, Parse, Whole;
    var k := Whole(crc, more, |tail|);
    LogThenCutParses(crc, log[first..], more, tail);
    var all := log + more[..k];
    assert all[first..] == log[first..] + more[..k];
    assert all[first..|all|] == all[first..];
  }

  lemma LogEnds(crc: Crc, files: seq<File>, log: seq<Mutation>, tail: bytes)
    requires HoldsLog(crc, files, log, tail) && files != []
    ensures AllEncodable(log) && Last(files).first <= |log|
    ensures Last(files).data == EncodeAll(crc, log[Last(files).first..]) + tail
  {
  }

  /** Scanning the whole log also finds the complete records of its tail, and stops there. */
  lemma ScanWhole(crc: Crc, files: seq<File>, log: seq<Mutation>, more: seq<Mutation>, tail: bytes, applied: nat,
                  all: seq<Mutation>)
    requires AllEncodable(more) && tail <= EncodeAll(crc, more)
    requires HoldsLog(crc, files, log, tail) && files != [] && files[0].first <= applied
    requires all == log + more[..Whole(crc, more, |tail|)]
    ensures AllEncodable(all) && Last(files).first <= |log|
    ensures ScanFiles(crc, files, applied, |files|) ==
            Ok(Progress(|all|, From(all, applied, |all|),
                        Some(Tail(Last(files).first, |EncodeAll(crc, all[Last(files).first..])|))))
  {
    hide EncodeAll, Parse, Whole, NewRecords, HoldsLog;
    var f := Last(files);
    LogEnds(crc, files, log, tail);
    ScanSealed(crc, files, log, tail, applied, |files| - 1);
    LastSegmentParses(crc, log, more, tail, f.first);
    assert From(all, applied, f.first) == From(log, applied, f.first) by {
      if applied < f.first { assert all[applied..f.first] == log[applied..f.first]; }
    }
    FromExtends(all, applied, f.first, |all|);
  }

  /**
   Recovery succeeds on any log whose tail is a byte prefix of further records, from any
   store holding a prefix of it that is not before the first segment: the store then
   holds the log and the tail's complete records, each applied exactly once.
   */
  lemma RecoveryCompletes(crc: Crc, files: seq<File>, log: seq<Mutation>, more: seq<Mutation>, tail: bytes, s: Store)
    requires AllEncodable(more) && tail <= EncodeAll(crc, more)
    requires HoldsLog(crc, files, log, tail)
    requires var all := log + more[..Whole(crc, more, |tail|)];
             |all| <= I64_MAX && s.applied <= |all| && Holds(s, all[..s.applied])
    requires files != [] ==> files[0].first <= s.applied
    ensures var all := log + more[..Whole(crc, more, |tail|)];
            var r := RecoverOf(crc, files, s, true);
            && AllEncodable(all)
            && r.Ok? && Holds(r.value.0, all)
            && (s.applied == |all| ==> r.value.0 == s)
            && (files == [] ==> r.value.1 == None)
            && (files != [] ==>
                  && Last(files).first <= |all|
                  && r.value.1 == Some(Tail(Last(files).first, |EncodeAll(crc, all[Last(files).first..])|)))
  {
    hide ApplyTo, EncodeAll, Whole;
    var all := log + more[..Whole(crc, more, |tail|)];
    if files == [] {
      EmptyTail(crc, more);
      assert all == [] && all[..0] == all;
    } else {
      ScanWhole(crc, files, log, more, tail, s.applied, all);
      CatchUp(s, all);
      assert |From(all, s.applied, |all|)| == |all| - s.applied;
    }
  }

  /** Applying what lies past the store's position completes it. */
  lemma CatchUp(s: Store, all: seq<Mutation>)
    requires |all| <= I64_MAX && s.applied <= |all| && Holds(s, all[..s.applied])
    ensures s.current.main == s.applied
    ensures var pending := From(all, s.applied, |all|);
            && (pending == [] <==> s.applied == |all|)
            && (pending == [] ==> Holds(s, all))
            && s.current.main + |pending| <= I64_MAX
            && (pending != [] ==> Holds(ApplyTo(s, pending, |all|), all))
  {
    hide ApplyTo;
    var pending := all[s.applied..];
    assert From(all, s.applied, |all|) == pending;
    assert all == all[..s.applied] + pending;
    if pending == [] {
      assert all[..s.applied] == all;
    } else {
      HoldsMore(s, all[..s.applied], pending);
    }
  }

  lemma EmptyTail(crc: Crc, more: seq<Mutation>)
    requires AllEncodable(more)
    ensures Whole(crc, more, 0) == 0
  {
    if more != [] {
      assert LogRecords.Records(crc, more)[0] == RecordOf(crc, more[0]);
    }
  }

  /** Recovering again, from the store recovery left, changes nothing. */
  lemma RecoveryIsIdempotent(crc: Crc, files: seq<File>, log: seq<Mutation>, more: seq<Mutation>, tail: bytes, s: Store)
    requires AllEncodable(more) && tail <= EncodeAll(crc, more)
    requires HoldsLog(crc, files, log, tail)
    requires var all := log + more[..Whole(crc, more, |tail|)];
             |all| <= I64_MAX && s.applied <= |all| && Holds(s, all[..s.applied])
    requires files != [] ==> files[0].first <= s.applied
    ensures var once := RecoverOf(crc, files, s, true);
            once.Ok? && RecoverOf(crc, files, once.value.0, true) == once
  {
    var all := log + more[..Whole(crc, more, |tail|)];
    RecoveryCompletes(crc, files, log, more, tail, s);
    var once := RecoverOf(crc, files, s, true).value.0;
    assert all[..|all|] == all;
    RecoveryCompletes(crc, files, log, more, tail, once);
  }

  // ---- What recovery cannot do without ---------------------------------------------------

  /** A store ahead of the log is refused: the log has lost what the store took from it. */
  lemma StoreAheadIsRefused(crc: Crc, files: seq<File>, log: seq<Mutation>, more: seq<Mutation>, tail: bytes, s: Store,
                            applyOk: bool)
    requires AllEncodable(more) && tail <= EncodeAll(crc, more)
    requires HoldsLog(crc, files, log, tail)
    requires |log| + Whole(crc, more, |tail|) < s.applied
    ensures RecoverOf(crc, files, s, applyOk) == Err(CorruptLog)
  {
    hide ApplyTo, EncodeAll, Whole;
    var all := log + more[..Whole(crc, more, |tail|)];
    if files != [] {
      FirstsRise(crc, files, log, tail, |files| - 1);
      ScanWhole(crc, files, log, more, tail, s.applied, all);
    }
  }

  /** A position before the first segment reads the log as one at its start does. */
  lemma {:induction false} ScanFromBefore(crc: Crc, files: seq<File>, log: seq<Mutation>, tail: bytes, applied: nat,
                                          n: nat)
    requires HoldsLog(crc, files, log, tail) && files != [] && n <= |files| && applied <= files[0].first
    ensures ScanFiles(crc, files, applied, n) == ScanFiles(crc, files, files[0].first, n)
  {
    hide Parse, NewRecords, HoldsLog;
    if n > 0 {
      ScanFromBefore(crc, files, log, tail, applied, n - 1);
      FirstsRise(crc, files, log, tail, n - 1);
      AllAreNew(files[n - 1].first, Parse(crc, files[n - 1].data).records, applied, files[0].first);
    }
  }

  lemma AllAreNew(first: nat, records: seq<Mutation>, a: nat, b: nat)
    requires a <= first && b <= first
    ensures NewRecords(first, records, a) == NewRecords(first, records, b)
  {
  }

  /**
   Recovery does not notice a gap: from a store behind the first segment it never reaches
   the log's store. So no segment may be removed before its successor's start is durable.
   */
  lemma GapIsNotRecovered(crc: Crc, files: seq<File>, log: seq<Mutation>, more: seq<Mutation>, tail: bytes, s: Store)
    requires AllEncodable(more) && tail <= EncodeAll(crc, more)
    requires HoldsLog(crc, files, log, tail) && files != []
    requires var all := log + more[..Whole(crc, more, |tail|)];
             |all| <= I64_MAX && s.applied <= |all| && Holds(s, all[..s.applied])
    requires s.applied < files[0].first
    ensures var all := log + more[..Whole(crc, more, |tail|)];
            var r := RecoverOf(crc, files, s, true);
            r.Ok? && !Holds(r.value.0, all)
  {
    hide ApplyTo, EncodeAll, Whole, Parse;
    var all, first := log + more[..Whole(crc, more, |tail|)], files[0].first;
    FirstsRise(crc, files, log, tail, |files| - 1);
    ScanFromBefore(crc, files, log, tail, s.applied, |files|);
    ScanWhole(crc, files, log, more, tail, first, all);
    var pending := From(all, first, |all|);
    HoldsCounts(s, all[..s.applied]);
    if pending != [] {
      ApplyCounts(s, pending, |all|);
      assert ApplyTo(s, pending, |all|).current.main < |all|;
    }
    forall t: Store | Holds(t, all) ensures t.current.main == |all| == t.applied { HoldsCounts(t, all); }
  }

  lemma HoldsCounts(s: Store, log: seq<Mutation>)
    requires Holds(s, log)
    ensures s.current.main == |log| == s.applied
  {
  }

  lemma ApplyCounts(s: Store, batch: seq<Mutation>, upto: nat)
    requires batch != [] && s.current.main + |batch| <= I64_MAX && upto < U64_END
    ensures ApplyTo(s, batch, upto).current.main == s.current.main + |batch| && ApplyTo(s, batch, upto).applied == upto
  {
  }
}
