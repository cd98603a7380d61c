/**
 The store a log of mutations makes: applying them from empty, each at its own position.
 Batches and reopenings in between leave no mark on it.
 */
module LogStores {
  import opened Wrappers
  import opened Sequences
  import opened ByteStrings
  import opened Revisions
  import opened Mutations
  import opened StoredRecord
  import opened Stores
  import opened StoreInvariant
  import opened StoreReopen

  const EMPTY := Store(map[], map[], ZERO, 0, 0)

  /** The store after applying the mutations of a log one at a time. */
  function StoreOf(log: seq<Mutation>): (s: Store)
    requires |log| <= I64_MAX
    ensures s.current == Revision(|log|, 0) && s.applied == |log| && s.compacted == 0
  {
    if log == [] then EMPTY else ApplyTo(StoreOf(Front(log)), [Last(log)], |log|)
  }

  /** An empty store that has checkpointed: it has recorded that nothing is applied. */
  function CheckpointedEmpty(): Store {
    CheckpointOf(EMPTY)
  }

  /** The store is the one the log makes; an empty one may carry its position explicitly. */
  predicate Holds(s: Store, log: seq<Mutation>) {
    |log| <= I64_MAX && (s == StoreOf(log) || (log == [] && s == CheckpointedEmpty()))
  }

  /** However a log was batched, its store is that of applying it whole. */
  lemma {:induction false} AppliedWhole(log: seq<Mutation>)
    requires log != [] && |log| <= I64_MAX
    ensures StoreOf(log) == ApplyTo(EMPTY, log, |log|)
  {
    hide ApplyTo;
    var front, x := Front(log), Last(log);
    if front == [] {
      assert log == [x];
    } else {
      assert log == front + [x];
      AppliedWhole(front);
      AppendsOne(front, x);
    }
  }

  lemma AppendsOne(front: seq<Mutation>, x: Mutation)
    requires front != [] && |front| < I64_MAX && StoreOf(front) == ApplyTo(EMPTY, front, |front|)
    ensures StoreOf(front + [x]) == ApplyTo(EMPTY, front + [x], |front| + 1)
  {
    hide ApplyTo;
    Snoc(front, x);
    BatchingIsUnobservable(EMPTY, front, [x], |front|, |front| + 1);
  }

  lemma NothingApplied()
    ensures StoreOf([]) == EMPTY
  {
  }

  /** Applying a batch at the end of a log is applying the longer log. */
  lemma BatchesJoinLog(a: seq<Mutation>, b: seq<Mutation>)
    requires b != [] && |a| + |b| <= I64_MAX
    ensures ApplyTo(StoreOf(a), b, |a| + |b|) == StoreOf(a + b)
  {
    hide ApplyTo, StoreOf;
    NothingApplied();
    AppliedWhole(a + b);
    if a == [] {
      assert a + b == b;
    } else {
      AppliedWhole(a);
      BatchingIsUnobservable(EMPTY, a, b, |a|, |a| + |b|);
    }
  }

  lemma ApplyForgetsMarker(b: seq<Mutation>)
    requires b != [] && |b| <= I64_MAX
    ensures ApplyTo(CheckpointedEmpty(), b, |b|) == ApplyTo(EMPTY, b, |b|)
  {
    hide WithRecords, Recorded;
    var events := EventsAfter(ZERO, b);
    assert ValidRevisions(events);
    MarkerIsApart(map[], events, EncodePosition(0));
    assert CheckpointedEmpty().backend == map[APPLIED_KEY := EncodePosition(0)];
  }

  lemma HoldsMore(s: Store, log: seq<Mutation>, more: seq<Mutation>)
    requires Holds(s, log) && more != [] && |log| + |more| <= I64_MAX
    ensures s.current == Revision(|log|, 0) && s.applied == |log|
    ensures Holds(ApplyTo(s, more, |log| + |more|), log + more)
  {
    BatchesJoinLog(log, more);
    if log == [] {
      ApplyForgetsMarker(more);
    }
  }

  /** The store of a log represents the events its mutations became. */
  lemma StoreOfRepresents(log: seq<Mutation>)
    requires Storable(log) && |log| <= I64_MAX
    ensures Represents(StoreOf(log), EventsAfter(ZERO, log))
  {
    hide Represents, ApplyTo, StoreOf;
    NothingApplied();
    EmptyRepresents();
    assert [] + EventsAfter(ZERO, log) == EventsAfter(ZERO, log);
    if log != [] {
      AppliedWhole(log);
      ApplyKeepsInvariant(EMPTY, [], log, |log|);
    }
  }

  /** Rewriting the position of a log's store changes nothing that was recorded. */
  lemma CheckpointHolds(s: Store, log: seq<Mutation>)
    requires Holds(s, log)
    ensures s.applied < U64_END && Holds(CheckpointOf(s), log)
  {
    if log != [] {
      assert s.backend[APPLIED_KEY := EncodePosition(s.applied)] == s.backend;
    } else {
      assert CheckpointOf(CheckpointedEmpty()) == CheckpointedEmpty();
    }
  }

  /** Reopening the backend of a log's store gives the same store back. */
  lemma HoldsReopens(s: Store, log: seq<Mutation>)
    requires Holds(s, log) && Storable(log)
    ensures OpenOf(s.backend) == Ok(s)
  {
    StoreOfRepresents(log);
    if s == StoreOf(log) {
      ReopenIsIdentity(s, EventsAfter(ZERO, log));
    } else {
      CheckpointKeepsInvariant(EMPTY, []);
      assert EventsAfter(ZERO, []) == [];
      ReopenIsIdentity(s, []);
    }
  }
}
