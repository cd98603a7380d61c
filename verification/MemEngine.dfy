/**
 The in-memory engine: readers and writers on one shared keyspace, first as interleaved
 steps of any number of threads, then as the objects one thread holds.
 */
module MemEngines {
  import opened Wrappers
  import opened Sequences
  import opened ByteStrings
  import opened OrderedScan

  datatype Edit = Insert(key: bytes, value: bytes) | Remove(key: bytes)

  function Edited(m: Map, e: Edit): Map {
    match e
    case Insert(key, value) => m[key := value]
    case Remove(key) => m - {key}
  }

  function Find(m: Map, key: bytes): Option<bytes> {
    if key in m then Some(m[key]) else None
  }

  function EditedAll(m: Map, edits: seq<Edit>): Map {
    if edits == [] then m else Edited(EditedAll(m, Front(edits)), Last(edits))
  }

  /** How far one write transaction has come. */
  datatype Txn =
    | Acquired
    | Working(working: Map, edits: seq<Edit>)
    | Published
    | Finishing(committed: bool)
    | Done(committed: bool)

  /** A read transaction's snapshot, and how many commits preceded it. */
  datatype Reader = Reader(snapshot: Map, since: nat)

  datatype Commit = Commit(txn: nat, edits: seq<Edit>)

  /** The shared keyspace and gate, the transactions of all threads, and the commits so far. */
  datatype State =
    State(committed: Map, held: bool, txns: map<nat, Txn>, readers: map<nat, Reader>, commits: seq<Commit>)

  /** One atomic action of some thread. */
  datatype Action =
    | BeginRead(reader: nat)
    | Acquire(txn: nat)
    | Load(txn: nat)
    | Write(txn: nat, edit: Edit)
    | Publish(txn: nat)
    | MarkFinished(txn: nat)
    | Release(txn: nat)
    | Drop(txn: nat)

  const START := State(map[], false, map[], map[], [])

  function Is(s: State, t: nat): Option<Txn> {
    if t in s.txns then Some(s.txns[t]) else None
  }

  function Put(s: State, t: nat, x: Txn): State {
    s.(txns := s.txns[t := x])
  }

  /**
   The state after an action; one that cannot happen yet, such as acquiring a held gate,
   leaves its thread waiting.
   */
  function Act(s: State, a: Action): State {
    match a
    case BeginRead(r) =>
      if r in s.readers then s else s.(readers := s.readers[r := Reader(s.committed, |s.commits|)])
    case Acquire(t) =>
      if s.held || t in s.txns then s else Put(s.(held := true), t, Acquired)
    case Load(t) =>
      if Is(s, t) != Some(Acquired) then s else Put(s, t, Working(s.committed, []))
    case Write(t, e) =>
      (match Is(s, t)
       case Some(Working(m, edits)) => Put(s, t, Working(Edited(m, e), edits + [e]))
       case _ => s)
    case Publish(t) =>
      (match Is(s, t)
       case Some(Working(m, edits)) =>
         Put(s.(committed := m, commits := s.commits + [Commit(t, edits)]), t, Published)
       case _ => s)
    case MarkFinished(t) =>
      (match Is(s, t)
       case Some(Working(_, _)) => Put(s, t, Finishing(false))
       case Some(Published) => Put(s, t, Finishing(true))
       case _ => s)
    case Release(t) =>
      (match Is(s, t)
       case Some(Finishing(committed)) => Put(s.(held := false), t, Done(committed))
       case _ => s)
    case Drop(t) =>
      (match Is(s, t)
       case Some(Working(_, _)) => Put(s, t, Finishing(false))
       case _ => s)
  }

  function ActAll(s: State, actions: seq<Action>): State {
    if actions == [] then s else Act(ActAll(s, Front(actions)), Last(actions))
  }

  /** The keyspace that running some transactions one after another, whole, leaves. */
  function Serial(commits: seq<Commit>): Map {
    if commits == [] then map[] else EditedAll(Serial(Front(commits)), Last(commits).edits)
  }

  predicate Unfinished(s: State, t: nat) {
    t in s.txns && !s.txns[t].Done?
  }

  /** At most one write transaction is unfinished, and the gate is held exactly while one is. */
  ghost predicate OneWriter(s: State) {
    && (forall t, u :: Unfinished(s, t) && Unfinished(s, u) ==> t == u)
    && (s.held <==> exists t :: Unfinished(s, t))
  }

  predicate HasCommitted(x: Txn) {
    match x
    case Published => true
    case Finishing(committed) => committed
    case Done(committed) => committed
    case _ => false
  }

  ghost predicate CommittedOnce(s: State) {
    && (forall i :: 0 <= i < |s.commits| ==> s.commits[i].txn in s.txns && HasCommitted(s.txns[s.commits[i].txn]))
    && (forall t :: t in s.txns && HasCommitted(s.txns[t]) ==>
          exists i :: 0 <= i < |s.commits| && s.commits[i].txn == t)
    && (forall i, j :: 0 <= i < j < |s.commits| ==> s.commits[i].txn != s.commits[j].txn)
  }

  /** A writer works on the committed keyspace with its own edits, and nobody else's. */
  ghost predicate WritersAreIsolated(s: State) {
    forall t :: t in s.txns && s.txns[t].Working? ==> s.txns[t].working == EditedAll(s.committed, s.txns[t].edits)
  }

  /** A reader sees the commits before it opened, and never a later one. */
  ghost predicate ReadersAreIsolated(s: State) {
    forall r :: r in s.readers ==>
      s.readers[r].since <= |s.commits| && s.readers[r].snapshot == Serial(s.commits[..s.readers[r].since])
  }

  ghost predicate Isolated(s: State) {
    && OneWriter(s)
    && s.committed == Serial(s.commits)
    && CommittedOnce(s)
    && WritersAreIsolated(s)
    && ReadersAreIsolated(s)
  }

  // ---- Every action keeps isolation ----------------------------------------------------------

  /** A transaction moving on without committing or releasing. */
  lemma MovesOn(s: State, t: nat, x: Txn)
    requires Isolated(s) && Unfinished(s, t) && !x.Done?
    requires HasCommitted(x) <==> HasCommitted(s.txns[t])
    requires x.Working? ==> x.working == EditedAll(s.committed, x.edits)
    ensures Isolated(Put(s, t, x))
  {
    hide EditedAll, Serial;
    var next := Put(s, t, x);
    assert Unfinished(next, t);
    forall u ensures Unfinished(next, u) <==> Unfinished(s, u) {}
    forall u | u in next.txns && HasCommitted(next.txns[u])
      ensures exists i :: 0 <= i < |s.commits| && s.commits[i].txn == u
    {
      assert u in s.txns && HasCommitted(s.txns[u]);
    }
  }

  lemma CommitIsRecorded(s: State, t: nat)
    requires CommittedOnce(s) && t in s.txns && s.txns[t].Working?
    ensures CommittedOnce(Act(s, Publish(t)))
  {
    hide EditedAll;
    var next := Act(s, Publish(t));
    forall u | u in next.txns && HasCommitted(next.txns[u])
      ensures exists i :: 0 <= i < |next.commits| && next.commits[i].txn == u
    {
      if u == t {
        assert next.commits[|s.commits|].txn == t;
      } else {
        var i :| 0 <= i < |s.commits| && s.commits[i].txn == u;
        assert next.commits[i].txn == u;
      }
    }
  }

  lemma Commits(s: State, t: nat)
    requires Isolated(s) && t in s.txns && s.txns[t].Working?
    ensures Isolated(Act(s, Publish(t)))
  {
    hide EditedAll, CommittedOnce;
    var Working(m, edits) := s.txns[t];
    var next := Act(s, Publish(t));
    CommitIsRecorded(s, t);
    Snoc(s.commits, Commit(t, edits));
    assert Unfinished(s, t) && Unfinished(next, t);
    forall u ensures Unfinished(next, u) <==> Unfinished(s, u) {}
    forall u | u in next.txns && next.txns[u].Working?
      ensures next.txns[u].working == EditedAll(next.committed, next.txns[u].edits)
    {
      assert Unfinished(s, u);
    }
    forall r | r in next.readers ensures next.commits[..next.readers[r].since] == s.commits[..s.readers[r].since] {}
  }

  lemma Begins(s: State, t: nat)
    requires Isolated(s) && !s.held && t !in s.txns
    ensures Isolated(Act(s, Acquire(t)))
  {
    hide EditedAll, Serial;
    var next := Act(s, Acquire(t));
    assert Unfinished(next, t);
    forall u ensures Unfinished(next, u) <==> u == t || Unfinished(s, u) {}
    forall u | u in next.txns && HasCommitted(next.txns[u])
      ensures exists i :: 0 <= i < |s.commits| && s.commits[i].txn == u
    {
      assert u in s.txns && HasCommitted(s.txns[u]);
    }
  }

  lemma Ends(s: State, t: nat)
    requires Isolated(s) && t in s.txns && s.txns[t].Finishing?
    ensures Isolated(Act(s, Release(t)))
  {
    hide EditedAll, Serial;
    var next := Act(s, Release(t));
    assert Unfinished(s, t);
    forall u ensures Unfinished(next, u) <==> Unfinished(s, u) && u != t {}
    forall u | u in next.txns && HasCommitted(next.txns[u])
      ensures exists i :: 0 <= i < |s.commits| && s.commits[i].txn == u
    {
      assert u in s.txns && HasCommitted(s.txns[u]);
    }
  }

  lemma Opens(s: State, r: nat)
    requires Isolated(s)
    ensures Isolated(Act(s, BeginRead(r)))
  {
    hide EditedAll, Serial;
    var next := Act(s, BeginRead(r));
    assert s.commits[..|s.commits|] == s.commits;
    forall u ensures Unfinished(next, u) <==> Unfinished(s, u) {}
  }

  lemma ActionKeepsIsolation(s: State, a: Action)
    requires Isolated(s)
    ensures Isolated(Act(s, a))
  {
    hide OneWriter, CommittedOnce, WritersAreIsolated, ReadersAreIsolated, Isolated, Serial;
    match a
    case BeginRead(r) => Opens(s, r);
    case Acquire(t) => if !s.held && t !in s.txns { Begins(s, t); }
    case Load(t) => if Is(s, t) == Some(Acquired) { MovesOn(s, t, Working(s.committed, [])); }
    case Write(t, e) =>
      if t in s.txns && s.txns[t].Working? {
        WorksOnCommitted(s, t);
        Snoc(s.txns[t].edits, e);
        MovesOn(s, t, Working(Edited(s.txns[t].working, e), s.txns[t].edits + [e]));
      }
    case Publish(t) => if t in s.txns && s.txns[t].Working? { Commits(s, t); }
    case MarkFinished(t) =>
      if t in s.txns && (s.txns[t].Working? || s.txns[t].Published?) { MovesOn(s, t, Finishing(s.txns[t].Published?)); }
    case Release(t) => if t in s.txns && s.txns[t].Finishing? { Ends(s, t); }
    case Drop(t) => if t in s.txns && s.txns[t].Working? { MovesOn(s, t, Finishing(false)); }
  }

  lemma WorksOnCommitted(s: State, t: nat)
    requires Isolated(s) && t in s.txns && s.txns[t].Working?
    ensures s.txns[t].working == EditedAll(s.committed, s.txns[t].edits)
  {
  }

  /**
   However threads interleave, at most one write transaction is unfinished, the committed
   keyspace is that of the committed transactions run one after another in commit order,
   those aborted or dropped leave no trace, and readers see the commits before they opened.
   */
  lemma {:induction false} AlwaysIsolated(actions: seq<Action>)
    ensures Isolated(ActAll(START, actions))
  {
    if actions != [] {
      AlwaysIsolated(Front(actions));
      ActionKeepsIsolation(ActAll(START, Front(actions)), Last(actions));
    }
  }

  lemma SnapshotStays(s: State, a: Action, r: nat)
    ensures s.commits <= Act(s, a).commits
    ensures r in s.readers ==> r in Act(s, a).readers && Act(s, a).readers[r] == s.readers[r]
  {
    hide Edited;
  }

  /** Commits are only ever added, and an open reader's snapshot never changes. */
  lemma {:induction false} SnapshotsAreKept(s: State, actions: seq<Action>, r: nat)
    ensures s.commits <= ActAll(s, actions).commits
    ensures r in s.readers ==> r in ActAll(s, actions).readers && ActAll(s, actions).readers[r] == s.readers[r]
  {
    hide Act;
    if actions != [] {
      SnapshotsAreKept(s, Front(actions), r);
      SnapshotStays(ActAll(s, Front(actions)), Last(actions), r);
    }
  }

  predicate Abandoned(s: State, t: nat) {
    Is(s, t) == Some(Done(false)) || Is(s, t) == Some(Finishing(false))
  }

  lemma AbandonedStays(s: State, a: Action, t: nat)
    requires Abandoned(s, t)
    ensures Abandoned(Act(s, a), t)
  {
    hide Edited;
  }

  /** A transaction that ended without committing never commits, whatever follows. */
  lemma {:induction false} AbortedStaysOut(s: State, actions: seq<Action>, t: nat)
    requires Abandoned(s, t)
    ensures Abandoned(ActAll(s, actions), t)
  {
    hide Act, Abandoned;
    if actions != [] {
      AbortedStaysOut(s, Front(actions), t);
      AbandonedStays(ActAll(s, Front(actions)), Last(actions), t);
    }
  }

  /** Dropping a finished transaction does not open the gate again. */
  lemma DropReleasesOnce(s: State, t: nat)
    requires t in s.txns && s.txns[t].Done?
    ensures Act(s, Drop(t)) == s && Act(s, MarkFinished(t)) == s && Act(s, Release(t)) == s
  {
  }

  /** The gate is never left held: whoever holds it can let go on its own. */
  lemma GateIsFreed(actions: seq<Action>) returns (t: nat)
    requires ActAll(START, actions).held
    ensures var s := ActAll(START, actions);
            && Unfinished(s, t)
            && !ActAll(s, [Load(t), MarkFinished(t), Release(t)]).held
  {
    var s := ActAll(START, actions);
    AlwaysIsolated(actions);
    t :| Unfinished(s, t);
    ThreeActions(s, Load(t), MarkFinished(t), Release(t));
  }

  // ---- The objects a thread holds ---------------------------------------------------------------

  lemma TwoActions(s: State, a: Action, b: Action)
    ensures ActAll(s, [a, b]) == Act(Act(s, a), b)
  {
    assert Front([a, b]) == [a] && Front([a]) == [];
    assert ActAll(s, [a]) == Act(s, a);
  }

  lemma ThreeActions(s: State, a: Action, b: Action, c: Action)
    ensures ActAll(s, [a, b, c]) == Act(Act(Act(s, a), b), c)
  {
    assert Front([a, b, c]) == [a, b];
    TwoActions(s, a, b);
  }

  /** The gate that keeps write transactions apart. */
  class Gate {
    var held: bool

    constructor ()
      ensures !held
    {
      held := false;
    }

    /** Takes the gate unless it is held; its caller then waits to be woken and tries again. */
    method Acquire() returns (taken: bool)
      modifies this
      ensures held && taken == !old(held)
    {
      taken := !held;
      held := true;
    }

    method Release()
      modifies this
      ensures !held
    {
      held := false;
    }
  }

  /** What all threads share; `done` lists what was done to it, in order. */
  class Shared {
    var committed: Map
    const writer: Gate
    ghost var done: seq<Action>

    constructor ()
      ensures committed == map[] && fresh(writer) && !writer.held && done == []
    {
      committed, done := map[], [];
      writer := new Gate();
    }

    /** Copies the committed keyspace, for a reader or for a writer to work on. */
    method Copy(ghost action: Action) returns (m: Map)
      modifies this`done
      ensures m == committed && done == old(done) + [action]
    {
      done := done + [action];
      return committed;
    }

    method Publish(m: Map, ghost t: nat)
      modifies this
      ensures committed == m && done == old(done) + [Action.Publish(t)]
    {
      committed, done := m, done + [Action.Publish(t)];
    }

    /** Takes the gate, or finds it held and does nothing. */
    method Enter(ghost t: nat) returns (taken: bool)
      modifies this`done, writer
      ensures writer.held && taken == !old(writer.held)
      ensures done == old(done) + if taken then [Action.Acquire(t)] else []
    {
      taken := writer.Acquire();
      done := done + if taken then [Action.Acquire(t)] else [];
    }

    method Leave(ghost t: nat)
      modifies this`done, writer
      ensures !writer.held && done == old(done) + [Action.Release(t)]
    {
      writer.Release();
      done := done + [Action.Release(t)];
    }

    /** The shared fields are those of a state of the interleaved model. */
    ghost predicate Couples(s: State)
      reads this, writer
    {
      committed == s.committed && writer.held == s.held
    }
  }

  /** A read transaction over the keyspace as it was when it began. */
  class MemRead {
    const snapshot: Map

    constructor (snapshot: Map)
      ensures this.snapshot == snapshot
    {
      this.snapshot := snapshot;
    }

    /** This object is reader `r` of a state of the interleaved model. */
    ghost predicate Couples(s: State, r: nat) {
      r in s.readers && s.readers[r].snapshot == snapshot
    }

    /** Finds what the commits before the reader began left, whatever was committed since. */
    method Get(key: bytes, ghost s: State, ghost r: nat) returns (value: Option<bytes>)
      requires Isolated(s) && Couples(s, r)
      ensures s.readers[r].since <= |s.commits|
      ensures var seen := Serial(s.commits[..s.readers[r].since]);
              value == if key in seen then Some(seen[key]) else None
    {
      hide Serial, OneWriter, CommittedOnce, WritersAreIsolated;
      return Find(snapshot, key);
    }

    method Range(range: Range, limit: Option<nat>, ghost s: State, ghost r: nat)
      returns (pairs: seq<(bytes, bytes)>)
      requires Isolated(s) && Couples(s, r) && !range.Panics()
      ensures s.readers[r].since <= |s.commits|
      ensures ListsUpTo(pairs, Serial(s.commits[..s.readers[r].since]), range, limit)
    {
      ScanListsUpTo(snapshot, range, limit);
      hide Serial, OneWriter, CommittedOnce, WritersAreIsolated;
      return Scan(snapshot, range, limit);
    }
  }

  /** The one write transaction that may be unfinished at a time. */
  class MemWrite {
    const shared: Shared
    var working: Map
    var finished: bool

    constructor (shared: Shared, working: Map)
      ensures this.shared == shared && this.working == working && !finished
    {
      this.shared, this.working, finished := shared, working, false;
    }

    /** This object is transaction `t` of a state of the interleaved model. */
    ghost predicate Couples(s: State, t: nat)
      reads this, shared, shared.writer
    {
      && shared.Couples(s)
      && t in s.txns
      && match s.txns[t]
         case Working(m, _) => !finished && working == m
         case Published => !finished
         case Done(_) => finished
         case _ => false
    }

    /** Finds what the committed transactions and then this one's own edits left, and nobody else's. */
    method Get(key: bytes, ghost s: State, ghost t: nat) returns (value: Option<bytes>)
      requires Isolated(s) && Couples(s, t) && s.txns[t].Working?
      ensures var seen := EditedAll(Serial(s.commits), s.txns[t].edits);
              value == if key in seen then Some(seen[key]) else None
    {
      WorksOnCommitted(s, t);
      hide Serial, OneWriter, CommittedOnce, WritersAreIsolated, ReadersAreIsolated;
      return Find(working, key);
    }

    method Range(range: Range, limit: Option<nat>, ghost s: State, ghost t: nat)
      returns (pairs: seq<(bytes, bytes)>)
      requires Isolated(s) && Couples(s, t) && s.txns[t].Working? && !range.Panics()
      ensures ListsUpTo(pairs, EditedAll(Serial(s.commits), s.txns[t].edits), range, limit)
    {
      ScanListsUpTo(working, range, limit);
      WorksOnCommitted(s, t);
      hide Serial, OneWriter, CommittedOnce, WritersAreIsolated, ReadersAreIsolated;
      return Scan(working, range, limit);
    }

    method Insert(key: bytes, value: bytes, ghost s: State, ghost t: nat)
      requires !finished && Couples(s, t) && s.txns[t].Working?
      modifies this
      ensures working == old(working)[key := value] && !finished
      ensures Couples(Act(s, Write(t, Edit.Insert(key, value))), t)
    {
      working := working[key := value];
    }

    /** Removes a key and returns the value it had. */
    method Remove(key: bytes, ghost s: State, ghost t: nat) returns (was: Option<bytes>)
      requires !finished && Couples(s, t) && s.txns[t].Working?
      modifies this
      ensures was == if key in old(working) then Some(old(working)[key]) else None
      ensures working == old(working) - {key} && !finished
      ensures Couples(Act(s, Write(t, Edit.Remove(key))), t)
    {
      was := Find(working, key);
      working := working - {key};
    }

    /** Releases the writer slot exactly once, however often it is reached. */
    method Finish(ghost s: State, ghost t: nat)
      requires Couples(s, t)
      modifies this, shared`done, shared.writer
      ensures finished && working == old(working)
      ensures shared.done == old(shared.done) + if old(finished) then [] else [Action.Release(t)]
      ensures shared.writer.held == (old(finished) && old(shared.writer.held))
      ensures Couples(ActAll(s, [MarkFinished(t), Release(t)]), t)
    {
      TwoActions(s, MarkFinished(t), Release(t));
      if !finished {
        finished := true;
        shared.Leave(t);
      }
    }

    /** Publishes the working keyspace, then lets the next writer in. */
    method Commit(ghost s: State, ghost t: nat)
      requires Couples(s, t) && s.txns[t].Working?
      modifies this, shared, shared.writer
      ensures shared.committed == old(working) && !shared.writer.held && finished
      ensures shared.done == old(shared.done) + [Action.Publish(t)] + [Action.Release(t)]
      ensures Couples(ActAll(s, [Publish(t), MarkFinished(t), Release(t)]), t)
    {
      ThreeActions(s, Publish(t), MarkFinished(t), Release(t));
      TwoActions(Act(s, Publish(t)), MarkFinished(t), Release(t));
      shared.Publish(working, t);
      working := map[];
      Finish(Act(s, Publish(t)), t);
    }

    method CommitDurable(ghost s: State, ghost t: nat)
      requires Couples(s, t) && s.txns[t].Working?
      modifies this, shared, shared.writer
      ensures shared.committed == old(working) && !shared.writer.held && finished
      ensures shared.done == old(shared.done) + [Action.Publish(t)] + [Action.Release(t)]
      ensures Couples(ActAll(s, [Publish(t), MarkFinished(t), Release(t)]), t)
    {
      Commit(s, t);
    }

    method Abort(ghost s: State, ghost t: nat)
      requires Couples(s, t) && s.txns[t].Working?
      modifies this, shared`done, shared.writer
      ensures shared.committed == old(shared.committed) && !shared.writer.held && finished
      ensures shared.done == old(shared.done) + [Action.Release(t)]
      ensures Couples(ActAll(s, [MarkFinished(t), Release(t)]), t)
    {
      Finish(s, t);
    }

    /** Runs when the transaction goes out of scope, finished or not. */
    method Drop(ghost s: State, ghost t: nat)
      requires Couples(s, t)
      modifies this, shared`done, shared.writer
      ensures shared.committed == old(shared.committed) && finished
      ensures shared.done == old(shared.done) + if old(finished) then [] else [Action.Release(t)]
      ensures old(finished) ==> shared.writer.held == old(shared.writer.held) && Couples(s, t)
      ensures !old(finished) ==> !shared.writer.held
      ensures Couples(ActAll(s, [MarkFinished(t), Release(t)]), t)
    {
      Finish(s, t);
    }
  }

  class MemEngine {
    const shared: Shared

    constructor ()
      ensures fresh(shared) && fresh(shared.writer) && shared.Couples(START)
    {
      shared := new Shared();
    }

    method BeginRead(ghost s: State, ghost r: nat) returns (read: MemRead)
      requires shared.Couples(s) && r !in s.readers
      modifies shared`done
      ensures shared.done == old(shared.done) + [Action.BeginRead(r)]
      ensures fresh(read) && shared.Couples(Act(s, Action.BeginRead(r))) && read.Couples(Act(s, Action.BeginRead(r)), r)
      ensures read.snapshot == Act(s, Action.BeginRead(r)).readers[r].snapshot == shared.committed
    {
      var snapshot := shared.Copy(Action.BeginRead(r));
      read := new MemRead(snapshot);
    }

    /** Opens the write transaction, or leaves the caller waiting while another is unfinished. */
    method BeginWrite(ghost s: State, ghost t: nat) returns (write: Option<MemWrite>)
      requires shared.Couples(s) && t !in s.txns
      modifies shared`done, shared.writer
      ensures shared.done == old(shared.done) + if s.held then [] else [Action.Acquire(t)] + [Action.Load(t)]
      ensures shared.writer.held && shared.Couples(ActAll(s, [Acquire(t), Load(t)]))
      ensures write.None? <==> s.held
      ensures write.None? ==> ActAll(s, [Acquire(t), Load(t)]) == s
      ensures write.Some? ==>
                && fresh(write.value) && write.value.shared == shared && write.value.working == shared.committed
                && write.value.Couples(ActAll(s, [Acquire(t), Load(t)]), t)
                && ActAll(s, [Acquire(t), Load(t)]).txns[t].Working?
    {
      TwoActions(s, Acquire(t), Load(t));
      var taken := shared.Enter(t);
      if !taken {
        return None;
      }
      var working := shared.Copy(Action.Load(t));
      var txn := new MemWrite(shared, working);
      write := Some(txn);
    }
  }
}
