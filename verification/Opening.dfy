/** Opening a log: listing its directory, replaying what the store lacks, and reopening the last segment. */
module Opening {
  import opened Wrappers
  import opened Sequences
  import opened ByteStrings
  import opened Mutations
  import opened Frames
  import opened LogRecords
  import opened Segments
  import opened Recovery
  import opened Stores
  import opened KvStores
  import opened LogMachine
  import opened WriterRounds
  import opened Writers

  /** What a directory holds, in whatever order it lists it. */
  datatype DirEntry = SegmentFile(file: File) | UnreadableName | OtherFile

  function FilesAmong(entries: seq<DirEntry>): seq<File> {
    if entries == [] then []
    else FilesAmong(Front(entries)) + if Last(entries).SegmentFile? then [Last(entries).file] else []
  }

  predicate InOrder(files: seq<File>) {
    forall i, j :: 0 <= i < j < |files| ==> files[i].first <= files[j].first
  }

  predicate StrictlyInOrder(files: seq<File>) {
    forall i, j :: 0 <= i < j < |files| ==> files[i].first < files[j].first
  }

  /** Puts a file after those that start no later. */
  method InsertByFirst(sorted: seq<File>, f: File) returns (next: seq<File>)
    requires InOrder(sorted)
    ensures InOrder(next) && multiset(next) == multiset(sorted) + multiset{f}
  {
    var at := |sorted|;
    while at > 0 && sorted[at - 1].first > f.first
      invariant 0 <= at <= |sorted|
      invariant forall j :: at <= j < |sorted| ==> sorted[j].first > f.first
    {
      at := at - 1;
    }
    Inserting(sorted, at, f);
    InsertingKeepsAll(sorted, at, f);
    next := sorted[..at] + [f] + sorted[at..];
  }

  /** Sorts segment files by their first record, one insertion at a time. */
  method SortByFirst(files: seq<File>) returns (sorted: seq<File>)
    ensures InOrder(sorted) && multiset(sorted) == multiset(files)
  {
    hide InOrder;
    NothingIsInOrder();
    sorted := [];
    for i := 0 to |files|
      invariant InOrder(sorted) && multiset(sorted) == multiset(files[..i])
    {
      MultisetSnoc(files[..i], files[i]);
      assert files[..i + 1] == files[..i] + [files[i]];
      sorted := InsertByFirst(sorted, files[i]);
    }
    assert files[..|files|] == files;
  }

  lemma Inserting(sorted: seq<File>, at: nat, f: File)
    requires InOrder(sorted) && at <= |sorted|
    requires at > 0 ==> sorted[at - 1].first <= f.first
    requires forall j :: at <= j < |sorted| ==> sorted[j].first > f.first
    ensures InOrder(sorted[..at] + [f] + sorted[at..])
  {
    var next := sorted[..at] + [f] + sorted[at..];
    forall i, j | 0 <= i < j < |next| ensures next[i].first <= next[j].first {
      assert i < at ==> next[i] == sorted[i] && sorted[i].first <= f.first;
      assert i > at ==> next[i] == sorted[i - 1];
      assert j < at ==> next[j] == sorted[j];
      assert j > at ==> next[j] == sorted[j - 1];
    }
  }

  lemma InsertingKeepsAll(sorted: seq<File>, at: nat, f: File)
    requires at <= |sorted|
    ensures multiset(sorted[..at] + [f] + sorted[at..]) == multiset(sorted) + multiset{f}
  {
    MultisetSplit(sorted, at);
  }

  /** The segment files in a directory, ordered by their first record. */
  method List(entries: seq<DirEntry>) returns (listed: Result<seq<File>, RecoverError>)
    ensures listed.Err? <==> UnreadableName in entries
    ensures listed.Err? ==> listed.error == CorruptLog
    ensures listed.Ok? ==>
              && InOrder(listed.value) && multiset(listed.value) == multiset(FilesAmong(entries))
              && forall f :: multiset(listed.value)[f] == multiset(entries)[SegmentFile(f)]
  {
    var files := [];
    for i := 0 to |entries|
      invariant files == FilesAmong(entries[..i]) && UnreadableName !in entries[..i]
    {
      assert entries[..i + 1] == entries[..i] + [entries[i]];
      Snoc(entries[..i], entries[i]);
      match entries[i] {
        case OtherFile =>
        case UnreadableName => return Err(CorruptLog);
        case SegmentFile(file) => files := files + [file];
      }
    }
    assert entries[..|entries|] == entries;
    var sorted := SortByFirst(files);
    forall f ensures multiset(sorted)[f] == multiset(entries)[SegmentFile(f)] { AllAmong(entries, f); }
    return Ok(sorted);
  }

  /** A segment is among the files as often as the directory lists it. */
  lemma {:induction false} AllAmong(entries: seq<DirEntry>, f: File)
    ensures multiset(FilesAmong(entries))[f] == multiset(entries)[SegmentFile(f)]
  {
    if entries != [] {
      AllAmong(Front(entries), f);
      assert entries == Front(entries) + [Last(entries)];
    }
  }

  /** However a directory lists them, segments with rising names come out in their order. */
  lemma {:induction false} ListingIsDetermined(listed: seq<File>, files: seq<File>)
    requires InOrder(listed) && StrictlyInOrder(files) && multiset(listed) == multiset(files)
    ensures listed == files
  {
    hide InOrder, StrictlyInOrder;
    if files == [] {
      assert |multiset(listed)| == 0;
    } else {
      assert |multiset(listed)| == |multiset(files)|;
      SameLast(listed, files);
      FrontsRearrange(listed, files);
      FrontInOrder(listed, files);
      ListingIsDetermined(Front(listed), Front(files));
    }
  }

  lemma NothingIsInOrder()
    ensures InOrder([])
  {
  }

  lemma FrontInOrder(listed: seq<File>, files: seq<File>)
    requires InOrder(listed) && StrictlyInOrder(files) && listed != [] && files != []
    ensures InOrder(Front(listed)) && StrictlyInOrder(Front(files))
  {
  }

  lemma SameLast(listed: seq<File>, files: seq<File>)
    requires InOrder(listed) && StrictlyInOrder(files) && multiset(listed) == multiset(files)
    requires listed != [] && files != []
    ensures Last(listed) == Last(files)
  {
    hide InOrder, StrictlyInOrder;
    var x, y := Last(listed), Last(files);
    assert x in multiset(files) && y in multiset(listed);
    var i :| 0 <= i < |files| && files[i] == x;
    var j :| 0 <= j < |listed| && listed[j] == y;
    LastIsLatest(listed, j);
    LastIsStrictlyLatest(files, i);
  }

  lemma LastIsLatest(listed: seq<File>, j: nat)
    requires InOrder(listed) && j < |listed|
    ensures listed[j].first <= Last(listed).first
  {
  }

  lemma LastIsStrictlyLatest(files: seq<File>, i: nat)
    requires StrictlyInOrder(files) && i < |files|
    ensures i == |files| - 1 || files[i].first < Last(files).first
  {
  }

  /** The directory lists exactly these segments, among files that are not segments. */
  predicate Lists(entries: seq<DirEntry>, files: seq<File>) {
    StrictlyInOrder(files) && multiset(FilesAmong(entries)) == multiset(files)
  }

  /** The segments of a log are listed in the order they were started. */
  lemma {:induction false} LogIsInOrder(crc: Crc, files: seq<File>, log: seq<Mutation>, tail: bytes, i: nat, j: nat)
    requires HoldsLog(crc, files, log, tail) && i < j < |files|
    ensures files[i].first < files[j].first
  {
    assert Sealed(crc, files, log, j - 1);
    if i < j - 1 {
      LogIsInOrder(crc, files, log, tail, i, j - 1);
    }
  }

  datatype OpenError = Unrecoverable(error: RecoverError) | SegmentIo

  /**
   Opens the log in a directory over a store: recovers, then reopens the last segment or
   starts the first. The writer runs exactly the machine that recovering and reopening
   make; a name that cannot be read stops it before anything is done.
   */
  method OpenWith(cfg: Config, interval: nat, entries: seq<DirEntry>, flushed: seq<nat>, store: KvStore, applyOk: bool,
                  end: Truncation, ghost n: Node)
    returns (opened': Result<LogWriter, OpenError>)
    requires store.Valid()
    requires n.phase.Down? && n.phase.commits == store.engine.commits
    requires OpenOf(Last(n.phase.commits)) == Ok(store.View())
    requires Lists(entries, n.phase.files) && n.phase.flushed == flushed
    modifies store, store.engine, store.index
    ensures store.Valid()
    ensures UnreadableName in entries ==>
              opened' == Err(Unrecoverable(CorruptLog)) && store.View() == old(store.View())
    ensures UnreadableName !in entries ==>
            var up := ReopenStep(cfg, RecoverStep(cfg, n, applyOk), end);
            && (opened'.Ok? <==> up.phase.Running?)
            && (opened'.Ok? ==>
                  && fresh(opened'.value) && fresh(opened'.value.segment) && fresh(opened'.value.segment.sink)
                  && opened'.value.store == store && opened'.value.crc == cfg.crc
                  && opened'.value.interval == interval && opened'.value.appended == 0 && opened'.value.answers == []
                  && opened'.value.Valid() && opened'.value.batch == [] && opened'.value.requested == None
                  && up.phase == Running(opened'.value.View(), 0, false))
  {
    hide RecoverOf, OpenOf, FilesAmong, Settled;
    ghost var before := store.View();
    var listed := List(entries);
    if listed.Err? {
      return Err(Unrecoverable(listed.error));
    }
    var files := listed.value;
    ListingIsDetermined(files, n.phase.files);
    var recovered := Recovery.Recover(cfg.crc, files, store, applyOk);
    if recovered.Err? {
      return Err(Unrecoverable(recovered.error));
    }
    RecoveredTail(cfg.crc, files, before, applyOk);
    if !end.Complete? {
      return Err(SegmentIo);
    }
    var writer := StartWriter(cfg, interval, files, flushed, recovered.value, store);
    return Ok(writer);
  }

  /**
   Opens the log and serves a queue until it is closed: everything is served from the machine
   that recovering and reopening make, nothing yet counted, compacting at the interval given.
   */
  method OpenAndServe(cfg: Config, interval: nat, entries: seq<DirEntry>, flushed: seq<nat>, store: KvStore,
                      applyOk: bool, end: Truncation, queue: seq<Slot>, faults: nat -> RoundFault, ghost n: Node)
    returns (served: Result<LogWriter, OpenError>)
    requires store.Valid()
    requires n.phase.Down? && n.phase.commits == store.engine.commits
    requires OpenOf(Last(n.phase.commits)) == Ok(store.View())
    requires Lists(entries, n.phase.files) && n.phase.flushed == flushed
    requires var up := ReopenStep(cfg, RecoverStep(cfg, n, applyOk), end);
             up.phase.Running? ==> Room(up.phase.m, Load(queue[0..]))
    modifies store, store.engine, store.index
    ensures UnreadableName in entries ==> served == Err(Unrecoverable(CorruptLog))
    ensures UnreadableName !in entries ==>
            var up := ReopenStep(cfg, RecoverStep(cfg, n, applyOk), end);
            && (served.Ok? <==> up.phase.Running?)
            && (served.Ok? ==>
                  && served.value.Valid() && served.value.interval == interval
                  && served.value.State() == Serve(cfg.crc, interval, Service(up.phase.m, 0, []), queue, 0, faults, 0))
  {
    hide RecoverStep, ReopenStep, Serve, Load, OpenOf;
    assert queue[0..] == queue;
    var writer := OpenWith(cfg, interval, entries, flushed, store, applyOk, end, n);
    if writer.Err? {
      return Err(writer.error);
    }
    writer.value.Run(queue, faults);
    return writer;
  }

  /** Appends where recovery found the log to end, or to a first segment if it found none. */
  method StartWriter(cfg: Config, interval: nat, files: seq<File>, flushed: seq<nat>, end: Option<Tail>, store: KvStore)
    returns (writer: LogWriter)
    requires store.Valid()
    requires if files == [] then end == None
             else end.Some? && end.value.first == Last(files).first && end.value.valid <= |Last(files).data|
    ensures fresh(writer) && fresh(writer.segment) && fresh(writer.segment.sink)
    ensures writer.store == store && writer.crc == cfg.crc
    ensures writer.interval == interval && writer.appended == 0 && writer.answers == []
    ensures writer.Valid() && writer.batch == [] && writer.requested == None
    ensures writer.View() == Reopened(cfg, files, flushed, store.View(), store.engine.commits, end)
  {
    if end.None? {
      var created := new Segment.Create(cfg.limit);
      writer := new LogWriter(cfg.crc, interval, store, [], [], 0, created);
    } else {
      var sink := new Sink(Last(files).data);
      var reopened := Segment.Reopen(sink, end.value.valid, cfg.limit, Complete);
      var front := if flushed == [] then [] else Front(flushed);
      writer := new LogWriter(cfg.crc, interval, store, Front(files), front, end.value.first, reopened.value);
    }
  }

  /** Recovery points at the last segment, and at no more of it than there is. */
  lemma RecoveredTail(crc: Crc, files: seq<File>, s: Store, applyOk: bool)
    ensures var r := RecoverOf(crc, files, s, applyOk);
            r.Ok? ==>
              if files == [] then r.value.1 == None
              else
                && r.value.1.Some? && r.value.1.value.first == Last(files).first
                && r.value.1.value.valid <= |Last(files).data|
  {
    hide ApplyTo, NewRecords;
    if files != [] {
      ParsedFits(crc, Last(files).data);
    }
  }

  lemma {:induction false} ParsedFits(crc: Crc, b: bytes)
    ensures Parse(crc, b).valid <= |b|
    decreases |b|
  {
    hide DecodeRecord;
    if b != [] {
      var r := DecodeRecord(crc, b);
      if r.Ok? {
        ParsedFits(crc, b[r.value.1..]);
      }
    }
  }
}
