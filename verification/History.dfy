/**
 One key's revision history: its generations, what a read at some revision finds
 in them, and what compaction leaves of them.
 */
module Histories {
  import opened Wrappers
  import opened Sequences
  import opened ByteStrings
  import opened Revisions
  import opened Mutations

  datatype Found = Found(modified: Revision, created: Revision, version: int)

  /** `ver` counts every write of the generation, including those compaction dropped. */
  datatype Generation = Generation(created: Revision, ver: nat, revs: seq<Revision>, closed: bool)

  type History = seq<Generation>

  // ---- Well-formedness ------------------------------------------------------

  ghost predicate Monotone(revs: seq<Revision>) {
    forall i, j :: 0 <= i < j < |revs| ==> revs[i].main <= revs[j].main
  }

  ghost predicate ValidGeneration(g: Generation) {
    g.revs != [] && |g.revs| <= g.ver && Monotone(g.revs)
  }

  function FirstMain(g: Generation): nat {
    if g.revs == [] then 0 else g.revs[0].main
  }

  function FinalRev(g: Generation): Revision {
    if g.revs == [] then ZERO else Last(g.revs)
  }

  /** Whether `g` may follow `h`: its predecessor is closed and not after it. */
  ghost predicate Follows(h: History, g: Generation) {
    h != [] ==> Last(h).closed && FinalRev(Last(h)).main <= FirstMain(g)
  }

  /** Revisions never go back, and only the last generation may still be open. */
  ghost predicate ValidHistory(h: History) {
    h != [] ==> ValidHistory(Front(h)) && ValidGeneration(Last(h)) && Follows(Front(h), Last(h))
  }

  predicate Open(h: History) {
    h != [] && !Last(h).closed
  }

  /** No revision of the history is after `main`. */
  ghost predicate UpTo(h: History, main: nat) {
    h != [] ==> FinalRev(Last(h)).main <= main
  }

  lemma ValidSnoc(h: History, g: Generation)
    ensures ValidHistory(h + [g]) <==> ValidHistory(h) && ValidGeneration(g) && Follows(h, g)
  {
    Snoc(h, g);
  }

  lemma FirstToFinal(g: Generation)
    requires ValidGeneration(g)
    ensures FirstMain(g) <= FinalRev(g).main
  {
  }

  // ---- Writes ---------------------------------------------------------------

  function Pushed(g: Generation, r: Revision, closing: bool): Generation {
    Generation(g.created, g.ver + 1, g.revs + [r], closing)
  }

  function PutRev(h: History, r: Revision): History {
    if Open(h) then Front(h) + [Pushed(Last(h), r, false)]
    else h + [Generation(r, 1, [r], false)]
  }

  function TombstoneRev(h: History, r: Revision): History {
    if Open(h) then Front(h) + [Pushed(Last(h), r, true)] else h
  }

  lemma PushedValid(g: Generation, r: Revision, closing: bool)
    requires ValidGeneration(g) && FinalRev(g).main <= r.main
    ensures ValidGeneration(Pushed(g, r, closing))
    ensures FirstMain(Pushed(g, r, closing)) == FirstMain(g) && FinalRev(Pushed(g, r, closing)) == r
  {
    var revs := g.revs + [r];
    forall i, j | 0 <= i < j < |revs| ensures revs[i].main <= revs[j].main {
      assert i == |g.revs| - 1 || revs[i].main <= FinalRev(g).main;
    }
  }

  lemma WritesKeepValid(h: History, r: Revision)
    requires ValidHistory(h) && UpTo(h, r.main)
    ensures ValidHistory(PutRev(h, r)) && UpTo(PutRev(h, r), r.main)
    ensures ValidHistory(TombstoneRev(h, r)) && UpTo(TombstoneRev(h, r), r.main)
  {
    if Open(h) {
      PushedValid(Last(h), r, false);
      PushedValid(Last(h), r, true);
      ValidSnoc(Front(h), Pushed(Last(h), r, false));
      ValidSnoc(Front(h), Pushed(Last(h), r, true));
    } else {
      ValidSnoc(h, Generation(r, 1, [r], false));
    }
  }

  // ---- Reads ----------------------------------------------------------------

  /** How many leading revisions are at or before `at`: the partition point. */
  function Visible(revs: seq<Revision>, at: nat): (n: nat)
    ensures n <= |revs|
    ensures n > 0 <==> revs != [] && revs[0].main <= at
  {
    if revs == [] || revs[0].main > at then 0 else 1 + Visible(revs[1..], at)
  }

  lemma {:induction false} VisibleSplits(revs: seq<Revision>, at: nat)
    requires Monotone(revs)
    ensures forall i :: 0 <= i < |revs| ==> (revs[i].main <= at <==> i < Visible(revs, at))
  {
    if revs != [] {
      VisibleSplits(revs[1..], at);
      forall i | 0 <= i < |revs| ensures revs[i].main <= at <==> i < Visible(revs, at) {
        if i > 0 {
          assert revs[i] == revs[1..][i - 1];
          assert revs[0].main <= revs[i].main;
        }
      }
    }
  }

  lemma {:induction false} VisibleIs(revs: seq<Revision>, at: nat, n: nat)
    requires n <= |revs|
    requires forall i :: 0 <= i < n ==> revs[i].main <= at
    requires n < |revs| ==> revs[n].main > at
    ensures Visible(revs, at) == n
  {
    if n > 0 {
      VisibleIs(revs[1..], at, n - 1);
    }
  }

  /** Revisions after `at` do not change what is visible at `at`. */
  lemma VisiblePushed(revs: seq<Revision>, r: Revision, at: nat)
    requires Monotone(revs) && at < r.main
    ensures Visible(revs + [r], at) == Visible(revs, at)
  {
    VisibleSplits(revs, at);
    VisibleIs(revs + [r], at, Visible(revs, at));
  }

  /** Dropping leading visible revisions shortens the visible part by as many. */
  lemma VisibleSuffix(revs: seq<Revision>, n: nat, at: nat)
    requires Monotone(revs) && n < |revs| && revs[n].main <= at
    ensures n < Visible(revs, at) == n + Visible(revs[n..], at)
  {
    VisibleSplits(revs, at);
    VisibleIs(revs[n..], at, Visible(revs, at) - n);
  }

  predicate Ended(g: Generation, at: nat) {
    g.closed && FinalRev(g).main <= at
  }

  /** A generation in which a read at `at` finds a value. */
  predicate Live(g: Generation, at: nat) {
    g.revs != [] && FirstMain(g) <= at && !Ended(g, at)
  }

  function FoundIn(g: Generation, at: nat): Found
    requires Live(g, at)
  {
    var n := Visible(g.revs, at);
    Found(g.revs[n - 1], g.created, g.ver - (|g.revs| - n))
  }

  /** What a read at `at` finds, searching generations from the newest. */
  function At(h: History, at: nat): Option<Found> {
    if h == [] then None
    else
      var g := Last(h);
      if g.revs == [] then At(Front(h), at)
      else if Ended(g, at) then None
      else if FirstMain(g) <= at then Some(FoundIn(g, at))
      else At(Front(h), at)
  }

  // ---- Compaction -----------------------------------------------------------

  /** How many leading revisions of a generation no read at or after `at` needs. */
  function Cut(g: Generation, at: nat): (n: nat)
    ensures n <= |g.revs|
  {
    if Live(g, at) then Visible(g.revs, at) - 1
    else if FirstMain(g) > at then 0
    else |g.revs|
  }

  function Trimmed(g: Generation, at: nat): Generation {
    g.(revs := g.revs[Cut(g, at)..])
  }

  function TrimGeneration(g: Generation, at: nat): History {
    if Cut(g, at) == |g.revs| then [] else [Trimmed(g, at)]
  }

  /** What compaction at `at` leaves. */
  function Trim(h: History, at: nat): History {
    if h == [] then [] else Trim(Front(h), at) + TrimGeneration(Last(h), at)
  }

  function Dropped(h: History, at: nat): seq<Revision> {
    if h == [] then [] else Dropped(Front(h), at) + Last(h).revs[..Cut(Last(h), at)]
  }

  /** Every revision a history holds. */
  function AllRevs(h: History): multiset<Revision> {
    if h == [] then multiset{} else AllRevs(Front(h)) + multiset(Last(h).revs)
  }

  lemma TrimSnoc(h: History, g: Generation, at: nat)
    ensures Trim(h + [g], at) == Trim(h, at) + TrimGeneration(g, at)
  {
    Snoc(h, g);
  }

  /** A history that ended at or before `at` reads as absent and compacts to nothing. */
  lemma {:induction false} EndedIsGone(h: History, at: nat)
    requires ValidHistory(h) && !Open(h) && UpTo(h, at)
    ensures At(h, at) == None && Trim(h, at) == []
  {
    if h != [] {
      FirstToFinal(Last(h));
      EndedIsGone(Front(h), at);
    }
  }

  /** A generation begun by `at` has nothing before it that a read at `at` could find. */
  lemma BegunIsAlone(h: History, at: nat)
    requires ValidHistory(h) && h != [] && FirstMain(Last(h)) <= at
    ensures Trim(Front(h), at) == [] && At(Front(h), at) == None
    ensures Trim(h, at) == TrimGeneration(Last(h), at)
  {
    EndedIsGone(Front(h), at);
  }

  lemma TrimmedValid(g: Generation, at: nat)
    requires ValidGeneration(g) && Cut(g, at) < |g.revs|
    ensures ValidGeneration(Trimmed(g, at)) && FinalRev(Trimmed(g, at)) == FinalRev(g)
    ensures FirstMain(g) <= FirstMain(Trimmed(g, at))
    ensures Live(g, at) ==> FirstMain(Trimmed(g, at)) <= at
    ensures !Live(g, at) ==> Trimmed(g, at) == g && FirstMain(g) > at
  {
    var t, n := Trimmed(g, at), Cut(g, at);
    forall i, j | 0 <= i < j < |t.revs| ensures t.revs[i].main <= t.revs[j].main {
      assert g.revs[n + i].main <= g.revs[n + j].main;
    }
    VisibleSplits(g.revs, at);
  }

  /** Compaction keeps histories well-formed, and never changes whether the key is open. */
  lemma {:induction false} TrimValid(h: History, at: nat)
    requires ValidHistory(h)
    ensures ValidHistory(Trim(h, at)) && (Open(h) <==> Open(Trim(h, at)))
    ensures Trim(h, at) != [] ==> h != [] && FinalRev(Last(Trim(h, at))) == FinalRev(Last(h))
  {
    if h != [] {
      var f, g := Front(h), Last(h);
      TrimValid(f, at);
      if Cut(g, at) < |g.revs| {
        TrimmedValid(g, at);
        ValidSnoc(Trim(f, at), Trimmed(g, at));
      } else {
        FirstToFinal(g);
        EndedIsGone(h, at);
      }
    }
  }

  /** Reads of a trimmed live generation find what reads of the whole one did. */
  lemma TrimmedReads(g: Generation, c: nat, at: nat)
    requires ValidGeneration(g) && Live(g, c) && c <= at
    ensures At([Trimmed(g, c)], at) == if Ended(g, at) then None else Some(FoundIn(g, at))
  {
    hide Visible, Monotone;
    TrimmedValid(g, c);
    Snoc([], Trimmed(g, c));
    VisibleSplits(g.revs, c);
    VisibleSuffix(g.revs, Cut(g, c), at);
  }

  /** Reads at or after the compaction point are unaffected by it. */
  lemma {:induction false} TrimKeepsReads(h: History, c: nat, at: nat)
    requires ValidHistory(h) && c <= at
    ensures At(Trim(h, c), at) == At(h, at)
  {
    if h != [] {
      var f, g := Front(h), Last(h);
      if FirstMain(g) > c {
        TrimKeepsReads(f, c, at);
        assert Trimmed(g, c) == g;
        Snoc(Trim(f, c), g);
      } else if Live(g, c) {
        BegunIsAlone(h, c);
        TrimmedReads(g, c, at);
      } else {
        EndedIsGone(h, c);
      }
    }
  }

  /** What a read finds was written by then. */
  lemma {:induction false} FoundIsVisible(h: History, at: nat)
    requires ValidHistory(h)
    ensures At(h, at).Some? ==> At(h, at).value.modified.main <= at
  {
    if h != [] {
      FoundIsVisible(Front(h), at);
      VisibleSplits(Last(h).revs, at);
    }
  }

  /** Reads before the compaction point of a generation live at it. */
  lemma TrimmedReadsBefore(g: Generation, c: nat, at: nat)
    requires ValidGeneration(g) && Live(g, c) && at <= c
    ensures var first := FirstMain(Trimmed(g, c));
            && FoundIn(g, c).modified.main == first
            && At([Trimmed(g, c)], at) == (if first <= at then Some(FoundIn(g, c)) else None)
            && (first <= at ==> Live(g, at) && FoundIn(g, at) == FoundIn(g, c))
  {
    hide Visible, Monotone;
    var cut := Cut(g, c);
    TrimmedValid(g, c);
    Snoc([], Trimmed(g, c));
    VisibleSplits(g.revs, c);
    if g.revs[cut].main <= at {
      StillVisible(g.revs, c, at);
      VisibleSuffix(g.revs, cut, at);
      VisibleSplits(g.revs, at);
    }
  }

  /** Nothing was written between `at` and `c` if the last revision visible at `c` is at or before `at`. */
  lemma StillVisible(revs: seq<Revision>, c: nat, at: nat)
    requires Monotone(revs) && at <= c
    requires var n := Visible(revs, c); n > 0 && revs[n - 1].main <= at
    ensures Visible(revs, at) == Visible(revs, c)
  {
    hide Visible;
    VisibleSplits(revs, c);
    VisibleIs(revs, at, Visible(revs, c));
  }

  /**
   Reads before the compaction point find what they did before, unless they found the key
   and it reads differently by the point: then they find nothing.
   */
  lemma {:induction false} ReadsBeforePoint(h: History, c: nat, at: nat)
    requires ValidHistory(h) && at <= c
    ensures At(Trim(h, c), at) == if At(h, at) == At(h, c) then At(h, at) else None
  {
    hide Visible, FoundIn, Monotone;
    if h != [] {
      var f, g := Front(h), Last(h);
      if FirstMain(g) > c {
        ReadsBeforePoint(f, c, at);
        FirstToFinal(g);
        assert Trimmed(g, c) == g;
        Snoc(Trim(f, c), g);
      } else if Live(g, c) {
        BegunIsAlone(h, c);
        TrimmedReadsBefore(g, c, at);
        FoundIsVisible(h, at);
      } else {
        EndedIsGone(h, c);
      }
    }
  }

  lemma CutLater(g: Generation, a: nat, b: nat)
    requires ValidGeneration(g) && Live(g, a) && a <= b
    ensures Cut(g, b) == Cut(g, a) + Cut(Trimmed(g, a), b)
  {
    TrimmedValid(g, a);
    VisibleSplits(g.revs, a);
    VisibleSuffix(g.revs, Cut(g, a), b);
  }

  /** Trimming a live generation again, later. */
  lemma TrimmedLater(g: Generation, a: nat, b: nat)
    requires ValidGeneration(g) && Live(g, a) && a <= b
    ensures TrimGeneration(Trimmed(g, a), b) == TrimGeneration(g, b)
  {
    CutLater(g, a, b);
    DropDrop(g.revs, Cut(g, a), Cut(Trimmed(g, a), b));
  }

  /** Trimming a trimmed generation at an earlier point changes nothing. */
  lemma TrimmedEarlier(g: Generation, a: nat, b: nat)
    requires ValidGeneration(g) && Live(g, a) && b < a
    ensures TrimGeneration(Trimmed(g, a), b) == [Trimmed(g, a)]
  {
    var t, n := Trimmed(g, a), Cut(g, a);
    TrimmedValid(g, a);
    VisibleSplits(g.revs, a);
    assert |t.revs| > 1 ==> t.revs[1] == g.revs[n + 1];
    if FirstMain(t) <= b {
      VisibleIs(t.revs, b, 1);
      assert !Ended(t, b);
    }
    assert Cut(t, b) == 0;
    assert t.revs[0..] == t.revs;
  }

  /** Compacting twice is compacting once, at the later of the two points. */
  lemma {:induction false} TrimTwice(h: History, a: nat, b: nat)
    requires ValidHistory(h)
    ensures Trim(Trim(h, a), b) == Trim(h, if a <= b then b else a)
  {
    if h != [] {
      var c := if a <= b then b else a;
      var f, g := Front(h), Last(h);
      if FirstMain(g) > a {
        TrimTwice(f, a, b);
        assert Trimmed(g, a) == g;
        TrimSnoc(Trim(f, a), g, b);
        if a > b { assert TrimGeneration(g, b) == [g]; }
      } else if Live(g, a) {
        BegunIsAlone(h, a);
        BegunIsAlone(h, c);
        if a <= b { TrimmedLater(g, a, b); } else { TrimmedEarlier(g, a, b); }
        TrimSnoc([], Trimmed(g, a), b);
      } else {
        EndedIsGone(h, a);
        EndedIsGone(h, c);
      }
    }
  }

  lemma PushedTrims(g: Generation, r: Revision, closing: bool, c: nat)
    requires ValidGeneration(g) && !g.closed && FinalRev(g).main <= r.main && c < r.main
    ensures Cut(Pushed(g, r, closing), c) == Cut(g, c) < |g.revs|
    ensures Trimmed(Pushed(g, r, closing), c) == Pushed(Trimmed(g, c), r, closing)
  {
    PushedValid(g, r, closing);
    VisiblePushed(g.revs, r, c);
    var n := Cut(g, c);
    assert (g.revs + [r])[n..] == g.revs[n..] + [r];
  }

  /** Compaction commutes with any write above the compaction point. */
  lemma TrimCommutesWithWrites(h: History, c: nat, r: Revision)
    requires ValidHistory(h) && UpTo(h, r.main) && c < r.main
    ensures Trim(PutRev(h, r), c) == PutRev(Trim(h, c), r)
    ensures Trim(TombstoneRev(h, r), c) == TombstoneRev(Trim(h, c), r)
  {
    TrimValid(h, c);
    if Open(h) {
      var f, g := Front(h), Last(h);
      PushedTrims(g, r, false, c);
      PushedTrims(g, r, true, c);
      TrimSnoc(f, Pushed(g, r, false), c);
      TrimSnoc(f, Pushed(g, r, true), c);
      Snoc(Trim(f, c), Trimmed(g, c));
    } else {
      var started := Generation(r, 1, [r], false);
      TrimSnoc(h, started, c);
      assert started.revs[0..] == [r];
    }
  }

  /** Compaction splits every generation's revisions: the dropped first, the kept after. */
  lemma {:induction false} DroppedComplementsTrim(h: History, at: nat)
    ensures AllRevs(h) == multiset(Dropped(h, at)) + AllRevs(Trim(h, at))
  {
    if h != [] {
      var f, g := Front(h), Last(h);
      var n := Cut(g, at);
      DroppedComplementsTrim(f, at);
      MultisetSplit(g.revs, n);
      if n < |g.revs| {
        Snoc(Trim(f, at), Trimmed(g, at));
        assert AllRevs(Trim(h, at)) == AllRevs(Trim(f, at)) + multiset(g.revs[n..]);
      } else {
        assert Trim(h, at) == Trim(f, at) && multiset(g.revs[n..]) == multiset{};
      }
    }
  }

  // ---- The history of a log ---------------------------------------------------

  function Record(h: History, m: Mutation, r: Revision): History {
    if m.Put? then PutRev(h, r) else TombstoneRev(h, r)
  }

  /** The history a log of events leaves for one key. */
  function HistoryOf(log: seq<Event>, key: bytes): History {
    if log == [] then []
    else
      var e := Last(log);
      var h := HistoryOf(Front(log), key);
      if e.m.key == key then Record(h, e.m, e.rev) else h
  }

  /** Mains along a log never go back. */
  ghost predicate Ordered(log: seq<Event>) {
    forall i, j :: 0 <= i < j < |log| ==> log[i].rev.main <= log[j].rev.main
  }

  lemma {:induction false} HistoryValid(log: seq<Event>, key: bytes, main: nat)
    requires Ordered(log) && (log != [] ==> Last(log).rev.main <= main)
    ensures ValidHistory(HistoryOf(log, key)) && UpTo(HistoryOf(log, key), main)
  {
    if log != [] {
      var e := Last(log);
      HistoryValid(Front(log), key, e.rev.main);
      WritesKeepValid(HistoryOf(Front(log), key), e.rev);
    }
  }

  /** Once every write is visible, a read finds the open generation's end, or nothing. */
  lemma ReadAtEnd(h: History, at: nat)
    requires ValidHistory(h) && UpTo(h, at)
    ensures At(h, at) == if Open(h) then Some(Found(FinalRev(Last(h)), Last(h).created, Last(h).ver)) else None
  {
    if Open(h) {
      var g := Last(h);
      forall i | 0 <= i < |g.revs| ensures g.revs[i].main <= at {
        assert i == |g.revs| - 1 || g.revs[i].main <= FinalRev(g).main;
      }
      VisibleIs(g.revs, at, |g.revs|);
    }
  }

  /** A write is invisible to reads before it. */
  lemma ReadBeforeWrite(h: History, m: Mutation, r: Revision, at: nat)
    requires ValidHistory(h) && UpTo(h, r.main) && at < r.main
    ensures At(Record(h, m, r), at) == At(h, at)
  {
    if Open(h) {
      PushedValid(Last(h), r, m.Delete?);
      VisiblePushed(Last(h).revs, r, at);
      Snoc(Front(h), Pushed(Last(h), r, m.Delete?));
    } else {
      Snoc(h, Generation(r, 1, [r], false));
    }
  }

  function Metadata(v: Option<Version>): Option<Found> {
    match v
    case None => None
    case Some(x) => Some(Found(x.modified, x.created, x.version))
  }

  /** What one more visible write does to what a read finds. */
  function Step(found: Option<Found>, m: Mutation, r: Revision): Option<Found> {
    match m
    case Delete(_) => None
    case Put(_, _) =>
      match found
      case None => Some(Found(r, r, 1))
      case Some(f) => Some(Found(r, f.created, f.version + 1))
  }

  lemma ReadAfterWrite(h: History, m: Mutation, r: Revision, at: nat)
    requires ValidHistory(h) && UpTo(h, r.main) && r.main <= at
    ensures At(Record(h, m, r), at) == Step(At(h, at), m, r)
  {
    hide At, Monotone;
    WritesKeepValid(h, r);
    ReadAtEnd(h, at);
    ReadAtEnd(Record(h, m, r), at);
    if Open(h) {
      PushedValid(Last(h), r, m.Delete?);
      Snoc(Front(h), Pushed(Last(h), r, m.Delete?));
    } else {
      Snoc(h, Generation(r, 1, [r], false));
    }
  }

  /** A read of the history a log leaves is what replaying that log up to `at` gives. */
  lemma {:induction false} ReadIsReplay(log: seq<Event>, key: bytes, at: nat)
    requires Ordered(log)
    ensures At(HistoryOf(log, key), at) == Metadata(Replay(log, key, at))
  {
    if log != [] {
      var e, front := Last(log), Front(log);
      ReadIsReplay(front, key, at);
      HistoryValid(front, key, e.rev.main);
      if e.m.key == key {
        if e.rev.main > at {
          ReadBeforeWrite(HistoryOf(front, key), e.m, e.rev, at);
        } else {
          ReadAfterWrite(HistoryOf(front, key), e.m, e.rev, at);
        }
      }
    }
  }
}
