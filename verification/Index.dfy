/**
 The in-memory index: every key's history, kept in step with the log of events
 whatever compactions happen in between.
 */
module Indexes {
  import opened Wrappers
  import opened Sequences
  import opened ByteStrings
  import opened Revisions
  import opened Mutations
  import opened Histories
  import opened OrderedScan

  type IndexMap = map<bytes, History>

  // ---- What the operations do -------------------------------------------------

  function Lookup(idx: IndexMap, key: bytes): History {
    if key in idx then idx[key] else []
  }

  function IndexRecord(idx: IndexMap, m: Mutation, r: Revision): IndexMap {
    match m
    case Put(key, _) => idx[key := PutRev(Lookup(idx, key), r)]
    case Delete(key) => if key in idx then idx[key := TombstoneRev(idx[key], r)] else idx
  }

  function TrimIndex(idx: IndexMap, at: nat): IndexMap {
    map k | k in idx && Trim(idx[k], at) != [] :: Trim(idx[k], at)
  }

  /** The revisions compaction drops from the given keys, in turn. */
  function DroppedFrom(idx: IndexMap, keys: seq<bytes>, at: nat): seq<Revision> {
    if keys == [] then []
    else DroppedFrom(idx, Front(keys), at) + Dropped(Lookup(idx, Last(keys)), at)
  }

  /** What a read at `at` finds for the given keys, absent ones skipped. */
  function FindEach(idx: IndexMap, keys: seq<bytes>, at: nat): seq<(bytes, Found)> {
    if keys == [] then []
    else
      var before := FindEach(idx, Front(keys), at);
      match At(Lookup(idx, Last(keys)), at)
      case None => before
      case Some(found) => before + [(Last(keys), found)]
  }

  function IndexKeysIn(idx: IndexMap, range: Range): seq<bytes> {
    Sorted(set k | k in idx && range.Contains(k))
  }

  /** Every history is well-formed, non-empty, and not after `main`. */
  ghost predicate ValidIndex(idx: IndexMap, main: nat) {
    forall k :: k in idx ==> idx[k] != [] && ValidHistory(idx[k]) && UpTo(idx[k], main)
  }

  /** The index of a log: the events recorded in order. */
  function IndexOf(log: seq<Event>): IndexMap {
    if log == [] then map[] else IndexRecord(IndexOf(Front(log)), Last(log).m, Last(log).rev)
  }

  lemma {:induction false} IndexIsHistories(log: seq<Event>)
    ensures forall k :: Lookup(IndexOf(log), k) == HistoryOf(log, k)
    ensures forall k :: k in IndexOf(log) ==> IndexOf(log)[k] != []
  {
    if log != [] {
      IndexIsHistories(Front(log));
    }
  }

  lemma IndexOfValid(log: seq<Event>, main: nat)
    requires Ordered(log) && (log != [] ==> Last(log).rev.main <= main)
    ensures ValidIndex(IndexOf(log), main)
  {
    IndexIsHistories(log);
    forall k | k in IndexOf(log) ensures ValidHistory(IndexOf(log)[k]) && UpTo(IndexOf(log)[k], main) {
      assert Lookup(IndexOf(log), k) == HistoryOf(log, k);
      HistoryValid(log, k, main);
    }
  }

  lemma RecordValid(idx: IndexMap, m: Mutation, r: Revision, main: nat)
    requires ValidIndex(idx, main) && main <= r.main
    ensures ValidIndex(IndexRecord(idx, m, r), r.main)
  {
    var next := IndexRecord(idx, m, r);
    forall k | k in next ensures next[k] != [] && ValidHistory(next[k]) && UpTo(next[k], r.main) {
      if k == m.key { WritesKeepValid(Lookup(idx, k), r); }
    }
  }

  lemma TrimIndexValid(idx: IndexMap, at: nat, main: nat)
    requires ValidIndex(idx, main)
    ensures ValidIndex(TrimIndex(idx, at), main)
    ensures forall k :: Lookup(TrimIndex(idx, at), k) == Trim(Lookup(idx, k), at)
  {
    forall k | k in idx ensures ValidHistory(Trim(idx[k], at)) && UpTo(Trim(idx[k], at), main) {
      TrimValid(idx[k], at);
    }
  }

  lemma SameLookups(a: IndexMap, b: IndexMap, main: nat)
    requires ValidIndex(a, main) && ValidIndex(b, main)
    requires forall k :: Lookup(a, k) == Lookup(b, k)
    ensures a == b
  {
    forall k ensures k in a <==> k in b { assert Lookup(a, k) == Lookup(b, k); }
    forall k | k in a ensures a[k] == b[k] { assert Lookup(a, k) == Lookup(b, k); }
  }

  // ---- Compaction algebra -----------------------------------------------------

  /** Compacting an index twice is compacting it once, at the later point. */
  lemma TrimIndexTwice(idx: IndexMap, a: nat, b: nat, main: nat)
    requires ValidIndex(idx, main)
    ensures TrimIndex(TrimIndex(idx, a), b) == TrimIndex(idx, if a <= b then b else a)
  {
    var c := if a <= b then b else a;
    TrimIndexValid(idx, a, main);
    TrimIndexValid(TrimIndex(idx, a), b, main);
    TrimIndexValid(idx, c, main);
    forall k ensures Lookup(TrimIndex(TrimIndex(idx, a), b), k) == Lookup(TrimIndex(idx, c), k) {
      if k in idx { TrimTwice(idx[k], a, b); }
    }
    SameLookups(TrimIndex(TrimIndex(idx, a), b), TrimIndex(idx, c), main);
  }

  /** A write above the compaction point can be recorded before or after compacting. */
  lemma TrimIndexCommutes(idx: IndexMap, c: nat, m: Mutation, r: Revision, main: nat)
    requires ValidIndex(idx, main) && main <= r.main && c < r.main
    ensures TrimIndex(IndexRecord(idx, m, r), c) == IndexRecord(TrimIndex(idx, c), m, r)
  {
    var whole, trimmed := IndexRecord(idx, m, r), TrimIndex(idx, c);
    RecordValid(idx, m, r, main);
    TrimIndexValid(idx, c, main);
    TrimIndexValid(whole, c, r.main);
    RecordValid(trimmed, m, r, main);
    forall k ensures Lookup(TrimIndex(whole, c), k) == Lookup(IndexRecord(trimmed, m, r), k) {
      if k == m.key { TrimCommutesWithWrites(Lookup(idx, k), c, r); }
    }
    SameLookups(TrimIndex(whole, c), IndexRecord(trimmed, m, r), r.main);
  }

  // ---- Interleavings of writes and compactions ----------------------------------

  datatype Op = Write(event: Event) | Compact(at: nat)

  function RunIndex(ops: seq<Op>): IndexMap {
    if ops == [] then map[]
    else
      var idx := RunIndex(Front(ops));
      match Last(ops)
      case Write(e) => IndexRecord(idx, e.m, e.rev)
      case Compact(at) => TrimIndex(idx, at)
  }

  function LogOf(ops: seq<Op>): seq<Event> {
    if ops == [] then []
    else
      match Last(ops)
      case Write(e) => LogOf(Front(ops)) + [e]
      case Compact(_) => LogOf(Front(ops))
  }

  /** The latest point any compaction ran at. */
  function Watermark(ops: seq<Op>): nat {
    if ops == [] then 0
    else
      var w := Watermark(Front(ops));
      if Last(ops).Compact? && w < Last(ops).at then Last(ops).at else w
  }

  /** Every write lands at or after the previous one, and above every compaction so far. */
  ghost predicate Orderly(ops: seq<Op>) {
    ops != [] ==>
      && Orderly(Front(ops))
      && (Last(ops).Write? ==>
            && Watermark(Front(ops)) < Last(ops).event.rev.main
            && LastRevision(LogOf(Front(ops))).main <= Last(ops).event.rev.main)
  }

  lemma {:induction false} OrderlyLog(ops: seq<Op>)
    requires Orderly(ops)
    ensures Ordered(LogOf(ops))
    ensures forall i :: 0 <= i < |LogOf(ops)| ==> LogOf(ops)[i].rev.main > 0
  {
    if ops != [] {
      OrderlyLog(Front(ops));
      var log := LogOf(Front(ops));
      if Last(ops).Write? && log != [] {
        assert forall i :: 0 <= i < |log| - 1 ==> log[i].rev.main <= log[|log| - 1].rev.main;
      }
    }
  }

  /** Compacting below every revision changes nothing. */
  lemma TrimAtZero(log: seq<Event>)
    requires Ordered(log) && forall i :: 0 <= i < |log| ==> log[i].rev.main > 0
    ensures TrimIndex(IndexOf(log), 0) == IndexOf(log)
  {
    if log == [] {
    } else {
      var e, front := Last(log), Front(log);
      var main := LastRevision(front).main;
      TrimAtZero(front);
      IndexOfValid(front, main);
      TrimIndexCommutes(IndexOf(front), 0, e.m, e.rev, main);
    }
  }

  /**
   Whatever the interleaving, the index is one compaction, at the last watermark,
   of the index the same writes build uncompacted.
   */
  lemma {:induction false} CompactionsCollapse(ops: seq<Op>)
    requires Orderly(ops)
    ensures RunIndex(ops) == TrimIndex(IndexOf(LogOf(ops)), Watermark(ops))
  {
    if ops != [] {
      var front := Front(ops);
      var log, w := LogOf(front), Watermark(front);
      CompactionsCollapse(front);
      OrderlyLog(front);
      var main := LastRevision(log).main;
      IndexOfValid(log, main);
      match Last(ops)
      case Write(e) =>
        TrimIndexCommutes(IndexOf(log), w, e.m, e.rev, main);
        Snoc(log, e);
      case Compact(at) =>
        TrimIndexTwice(IndexOf(log), w, at, main);
    }
  }

  /** Every read at or after the last watermark finds what replaying the whole log gives. */
  lemma ReadsSurviveCompaction(ops: seq<Op>, key: bytes, at: nat)
    requires Orderly(ops) && Watermark(ops) <= at
    ensures At(Lookup(RunIndex(ops), key), at) == Metadata(Replay(LogOf(ops), key, at))
  {
    var log, w := LogOf(ops), Watermark(ops);
    CompactionsCollapse(ops);
    OrderlyLog(ops);
    TrimmedReadIsReplay(log, w, key, at);
  }

  lemma TrimmedReadIsReplay(log: seq<Event>, w: nat, key: bytes, at: nat)
    requires Ordered(log) && w <= at
    ensures At(Lookup(TrimIndex(IndexOf(log), w), key), at) == Metadata(Replay(log, key, at))
  {
    var main := LastRevision(log).main;
    IndexOfValid(log, main);
    IndexIsHistories(log);
    TrimIndexValid(IndexOf(log), w, main);
    HistoryValid(log, key, main);
    TrimKeepsReads(HistoryOf(log, key), w, at);
    ReadIsReplay(log, key, at);
  }

  // ---- The searches and the index itself ----------------------------------------

  lemma {:induction false} ValidEach(h: History)
    requires ValidHistory(h)
    ensures forall i :: 0 <= i < |h| ==> ValidGeneration(h[i])
    ensures forall i, j :: 0 <= i < j < |h| ==> h[i].closed && FinalRev(h[i]).main <= FirstMain(h[j])
  {
    if h != [] {
      var f, g := Front(h), Last(h);
      ValidEach(f);
      forall i | 0 <= i < |f| ensures f[i].closed && FinalRev(f[i]).main <= FirstMain(g) {
        FirstToFinal(Last(f));
      }
      forall i, j | 0 <= i < j < |h| ensures h[i].closed && FinalRev(h[i]).main <= FirstMain(h[j]) {
        assert h[i] == f[i] && (j < |f| ==> h[j] == f[j]);
      }
    }
  }

  /** Once the last generation has begun, no earlier one is live. */
  lemma EarlierAreOver(h: History, at: nat)
    requires ValidHistory(h) && h != [] && FirstMain(Last(h)) <= at
    ensures forall i :: 0 <= i < |h| - 1 ==> !Live(h[i], at)
  {
    ValidEach(h);
    forall i | 0 <= i < |h| - 1 ensures !Live(h[i], at) {
      assert h[i].closed && FinalRev(h[i]).main <= FirstMain(h[|h| - 1]);
    }
  }

  lemma ReadOfLast(h: History, at: nat)
    requires h != [] && ValidGeneration(Last(h))
    ensures var g := Last(h);
            && FirstMain(g) <= FinalRev(g).main
            && (FirstMain(g) > at ==> !Live(g, at))
            && At(h, at) == if Live(g, at) then Some(FoundIn(g, at))
                            else if FirstMain(g) <= at then None
                            else At(Front(h), at)
  {
    hide FoundIn;
    FirstToFinal(Last(h));
  }

  /** A read finds a value exactly when some generation is live, and then in that one. */
  lemma {:induction false} AtIsLive(h: History, at: nat)
    requires ValidHistory(h)
    ensures At(h, at) == None <==> forall i :: 0 <= i < |h| ==> !Live(h[i], at)
    ensures forall i :: 0 <= i < |h| && Live(h[i], at) ==> At(h, at) == Some(FoundIn(h[i], at))
  {
    hide FoundIn, Live, At;
    if h == [] {
      NothingRead(at);
    } else {
      var f, g := Front(h), Last(h);
      AtIsLive(f, at);
      ReadOfLast(h, at);
      assert forall i :: 0 <= i < |f| ==> f[i] == h[i];
      if FirstMain(g) <= at {
        EarlierAreOver(h, at);
      }
    }
  }

  lemma NothingRead(at: nat)
    ensures At([], at) == None
  {
  }

  method Locate(h: History, at: nat) returns (place: Option<(nat, nat)>)
    requires ValidHistory(h)
    ensures place.None? ==> forall i :: 0 <= i < |h| ==> !Live(h[i], at)
    ensures place.Some? ==>
              var (i, j) := place.value;
              && i < |h| && Live(h[i], at) && j == Visible(h[i].revs, at) - 1
              && forall k :: 0 <= k < |h| && Live(h[k], at) ==> k == i
  {
    ValidEach(h);
    for index := |h| downto 0
      invariant forall k :: index <= k < |h| ==> FirstMain(h[k]) > at
    {
      var generation := h[index];
      FirstToFinal(generation);
      if generation.closed && FinalRev(generation).main <= at {
        return None;
      }
      if FirstMain(generation) <= at {
        return Some((index, Visible(generation.revs, at) - 1));
      }
    }
    return None;
  }

  method ReadAt(h: History, at: nat) returns (found: Option<Found>)
    requires ValidHistory(h)
    ensures found == At(h, at)
  {
    AtIsLive(h, at);
    var place := Locate(h, at);
    if place == None {
      return None;
    }
    var (genIndex, revIndex) := place.value;
    var generation := h[genIndex];
    var trailing := |generation.revs| - 1 - revIndex;
    found := Some(Found(generation.revs[revIndex], generation.created, generation.ver - trailing));
  }

  function TrimEach(h: History, at: nat): History {
    if h == [] then [] else TrimEach(Front(h), at) + [Trimmed(Last(h), at)]
  }

  function Retained(h: History): History {
    if h == [] then []
    else Retained(Front(h)) + if Last(h).revs == [] then [] else [Last(h)]
  }

  lemma {:induction false} TrimIsRetained(h: History, at: nat)
    ensures Trim(h, at) == Retained(TrimEach(h, at))
    ensures |TrimEach(h, at)| == |h|
  {
    if h != [] {
      TrimIsRetained(Front(h), at);
      Snoc(TrimEach(Front(h), at), Trimmed(Last(h), at));
    }
  }

  /** The revisions one generation keeps are those past its cut. */
  lemma KeepIsPastCut(h: History, place: Option<(nat, nat)>, at: nat, i: nat, j: nat)
    requires ValidHistory(h) && i < |h| && j < |h[i].revs|
    requires place.None? ==> forall k :: 0 <= k < |h| ==> !Live(h[k], at)
    requires place.Some? ==>
               && place.value.0 < |h| && Live(h[place.value.0], at)
               && place.value.1 == Visible(h[place.value.0].revs, at) - 1
               && forall k :: 0 <= k < |h| && Live(h[k], at) ==> k == place.value.0
    ensures (h[i].revs[j].main > at || (place == Some((i, j)) && !(h[i].closed && j == |h[i].revs| - 1)))
            <==> Cut(h[i], at) <= j
  {
    ValidEach(h);
    var g := h[i];
    VisibleSplits(g.revs, at);
    FirstToFinal(g);
    if Live(g, at) {
      assert place.Some? && place.value.0 == i;
    } else if FirstMain(g) > at {
      assert j == 0 || g.revs[0].main <= g.revs[j].main;
    } else {
      assert j == |g.revs| - 1 || g.revs[j].main <= FinalRev(g).main;
    }
  }

  /** The inner scan over one generation's revisions. */
  method SplitGeneration(h: History, current: Option<(nat, nat)>, genIndex: nat, at: nat, dropped: seq<Revision>)
    returns (kept: seq<Revision>, all: seq<Revision>)
    requires ValidHistory(h) && genIndex < |h|
    requires current.None? ==> forall k :: 0 <= k < |h| ==> !Live(h[k], at)
    requires current.Some? ==>
               && current.value.0 < |h| && Live(h[current.value.0], at)
               && current.value.1 == Visible(h[current.value.0].revs, at) - 1
               && forall k :: 0 <= k < |h| && Live(h[k], at) ==> k == current.value.0
    ensures kept == h[genIndex].revs[Cut(h[genIndex], at)..]
    ensures all == dropped + h[genIndex].revs[..Cut(h[genIndex], at)]
  {
    var generation := h[genIndex];
    var lastIndex := |generation.revs| - 1;
    ghost var cut := Cut(generation, at);
    kept, all := [], dropped;
    for revIndex := 0 to |generation.revs|
      invariant kept == if revIndex <= cut then [] else generation.revs[cut..revIndex]
      invariant all == dropped + generation.revs[..if revIndex <= cut then revIndex else cut]
    {
      var rev := generation.revs[revIndex];
      var isCurrent := current == Some((genIndex, revIndex));
      var isTombstone := generation.closed && revIndex == lastIndex;
      KeepIsPastCut(h, current, at, genIndex, revIndex);
      if rev.main > at || (isCurrent && !isTombstone) {
        kept := kept + [rev];
      } else {
        all := all + [rev];
      }
    }
  }

  lemma TrimEachNext(h: History, i: nat, at: nat)
    requires i < |h|
    ensures TrimEach(h[..i + 1], at) == TrimEach(h[..i], at) + [Trimmed(h[i], at)]
    ensures Dropped(h[..i + 1], at) == Dropped(h[..i], at) + h[i].revs[..Cut(h[i], at)]
  {
    assert h[..i + 1] == h[..i] + [h[i]];
    Snoc(h[..i], h[i]);
  }

  lemma NothingTrimmed(at: nat)
    ensures TrimEach([], at) == [] && Dropped([], at) == []
  {
  }

  method CompactHistory(h: History, at: nat, dropped: seq<Revision>) returns (generations: History, all: seq<Revision>)
    requires ValidHistory(h)
    ensures generations == Trim(h, at)
    ensures all == dropped + Dropped(h, at)
  {
    hide TrimEach, Dropped, Trim, Retained;
    NothingTrimmed(at);
    var current := Locate(h, at);
    generations, all := [], dropped;
    for genIndex := 0 to |h|
      invariant generations == TrimEach(h[..genIndex], at)
      invariant all == dropped + Dropped(h[..genIndex], at)
    {
      TrimEachNext(h, genIndex, at);
      var kept;
      kept, all := SplitGeneration(h, current, genIndex, at, all);
      generations := generations + [h[genIndex].(revs := kept)];
    }
    assert h[..|h|] == h;
    TrimIsRetained(h, at);
    generations := RetainNonEmpty(generations);
  }

  method RetainNonEmpty(h: History) returns (kept: History)
    ensures kept == Retained(h)
  {
    kept := [];
    for i := 0 to |h|
      invariant kept == Retained(h[..i])
    {
      Snoc(h[..i], h[i]);
      assert h[..i + 1] == h[..i] + [h[i]];
      if h[i].revs != [] {
        kept := kept + [h[i]];
      }
    }
    assert h[..|h|] == h;
  }

  class Index {
    var keys: IndexMap

    constructor ()
      ensures keys == map[]
    {
      keys := map[];
    }

    method Put(key: bytes, revision: Revision)
      modifies this
      ensures keys == old(keys)[key := PutRev(Lookup(old(keys), key), revision)]
    {
      var generations := if key in keys then keys[key] else [];
      if generations != [] && !Last(generations).closed {
        var g := Last(generations);
        generations := generations[|generations| - 1 := g.(revs := g.revs + [revision], ver := g.ver + 1)];
        assert generations == Front(generations) + [Last(generations)];
      } else {
        generations := generations + [Generation(revision, 1, [revision], false)];
      }
      keys := keys[key := generations];
    }

    /** Returns whether the key existed; if not, nothing is recorded. */
    method Tombstone(key: bytes, revision: Revision) returns (existed: bool)
      modifies this
      ensures existed == Open(Lookup(old(keys), key))
      ensures keys == IndexRecord(old(keys), Delete(key), revision)
    {
      if key !in keys {
        return false;
      }
      var generations := keys[key];
      if generations == [] || Last(generations).closed {
        assert keys == keys[key := generations];
        return false;
      }
      var g := Last(generations);
      generations := generations[|generations| - 1 :=
        g.(revs := g.revs + [revision], ver := g.ver + 1, closed := true)];
      assert generations == Front(generations) + [Last(generations)];
      keys := keys[key := generations];
      return true;
    }

    /** Every key within `range` visible at `at`, ascending. */
    method Range(range: OrderedScan.Range, at: nat, ghost main: nat) returns (found: seq<(bytes, Found)>)
      requires ValidIndex(keys, main) && !range.Panics()
      ensures found == FindEach(keys, IndexKeysIn(keys, range), at)
    {
      var listed := IndexKeysIn(keys, range);
      found := [];
      for i := 0 to |listed|
        invariant found == FindEach(keys, listed[..i], at)
      {
        var key := listed[i];
        assert key in listed;
        FindEachNext(keys, listed, i, at);
        var read := ReadAt(keys[key], at);
        if read.Some? {
          found := found + [(key, read.value)];
        }
      }
      assert listed[..|listed|] == listed;
    }

    /** Discards history no read at or after `at` could observe, returning what was dropped. */
    method Compact(at: nat, ghost main: nat) returns (dropped: seq<Revision>)
      requires ValidIndex(keys, main)
      modifies this
      ensures keys == TrimIndex(old(keys), at)
      ensures dropped == DroppedFrom(old(keys), Sorted(old(keys).Keys), at)
    {
      var listed := Sorted(keys.Keys);
      dropped := [];
      ghost var was := keys;
      SortedAscends(keys.Keys);
      for i := 0 to |listed|
        invariant PartlyTrimmed(was, keys, listed[..i], at)
        invariant dropped == DroppedFrom(was, listed[..i], at)
      {
        var key := listed[i];
        assert key in listed;
        NotYetListed(listed, i);
        DroppedNext(was, listed, i, at);
        PartlyTrimmedNext(was, keys, listed, i, at);
        var kept, all := CompactHistory(keys[key], at, dropped);
        dropped := all;
        if kept == [] {
          keys := keys - {key};
        } else {
          keys := keys[key := kept];
        }
      }
      assert listed[..|listed|] == listed;
      AllTrimmed(was, keys, listed, at);
    }
  }

  /** The histories of `done` have been compacted, the others not yet. */
  ghost predicate PartlyTrimmed(was: IndexMap, now: IndexMap, done: seq<bytes>, at: nat) {
    && (forall k :: k in now <==> k in was && (k in done ==> Trim(was[k], at) != []))
    && (forall k :: k in now ==> now[k] == if k in done then Trim(was[k], at) else was[k])
  }

  lemma PartlyTrimmedMore(was: IndexMap, now: IndexMap, done: seq<bytes>, more: seq<bytes>, key: bytes, kept: History,
                          at: nat)
    requires PartlyTrimmed(was, now, done, at) && key in was && key !in done && kept == Trim(was[key], at)
    requires forall k :: k in more <==> k in done || k == key
    ensures key in now && now[key] == was[key]
    ensures kept == [] ==> PartlyTrimmed(was, now - {key}, more, at)
    ensures kept != [] ==> PartlyTrimmed(was, now[key := kept], more, at)
  {
  }

  lemma PartlyTrimmedNext(was: IndexMap, now: IndexMap, listed: seq<bytes>, i: nat, at: nat)
    requires i < |listed| && PartlyTrimmed(was, now, listed[..i], at)
    requires listed[i] in was && listed[i] !in listed[..i]
    ensures listed[i] in now && now[listed[i]] == was[listed[i]]
    ensures var kept := Trim(was[listed[i]], at);
            && (kept == [] ==> PartlyTrimmed(was, now - {listed[i]}, listed[..i + 1], at))
            && (kept != [] ==> PartlyTrimmed(was, now[listed[i] := kept], listed[..i + 1], at))
  {
    assert listed[..i + 1] == listed[..i] + [listed[i]];
    PartlyTrimmedMore(was, now, listed[..i], listed[..i + 1], listed[i], Trim(was[listed[i]], at), at);
  }

  lemma AllTrimmed(was: IndexMap, now: IndexMap, done: seq<bytes>, at: nat)
    requires PartlyTrimmed(was, now, done, at)
    requires forall k :: k in was ==> k in done
    ensures now == TrimIndex(was, at)
  {
    var all := TrimIndex(was, at);
    assert forall k :: k in now <==> k in all;
    assert forall k :: k in now ==> now[k] == all[k];
  }

  lemma FindEachNext(idx: IndexMap, listed: seq<bytes>, i: nat, at: nat)
    requires i < |listed|
    ensures FindEach(idx, listed[..i + 1], at) ==
            match At(Lookup(idx, listed[i]), at)
            case None => FindEach(idx, listed[..i], at)
            case Some(found) => FindEach(idx, listed[..i], at) + [(listed[i], found)]
  {
    assert listed[..i + 1] == listed[..i] + [listed[i]];
    Snoc(listed[..i], listed[i]);
  }

  lemma DroppedNext(idx: IndexMap, listed: seq<bytes>, i: nat, at: nat)
    requires i < |listed|
    ensures DroppedFrom(idx, listed[..i + 1], at) ==
            DroppedFrom(idx, listed[..i], at) + Dropped(Lookup(idx, listed[i]), at)
  {
    assert listed[..i + 1] == listed[..i] + [listed[i]];
    Snoc(listed[..i], listed[i]);
  }

  lemma NotYetListed(listed: seq<bytes>, i: nat)
    requires Ascending(listed) && i < |listed|
    ensures listed[i] !in listed[..i]
  {
    LessIrreflexive(listed[i]);
  }
}
