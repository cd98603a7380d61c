/** Resolved changes to the keyspace, and the log of the revisions they took. */
module Mutations {
  import opened Wrappers
  import opened Sequences
  import opened ByteStrings
  import opened Revisions

  datatype Mutation = Put(key: bytes, value: bytes) | Delete(key: bytes) {
    function Payload(): bytes {
      if Put? then value else []
    }
  }

  /** A mutation applied at a revision. */
  datatype Event = Event(rev: Revision, m: Mutation)

  /** The revision of the last event, or zero before any. */
  function LastRevision(log: seq<Event>): Revision {
    if log == [] then ZERO else Last(log).rev
  }

  /** Every event follows the one before it. */
  ghost predicate Rising(log: seq<Event>) {
    forall i, j {:trigger log[i].rev.Before(log[j].rev)} :: 0 <= i < j < |log| ==> log[i].rev.Before(log[j].rev)
  }

  /** What a client reading a key expects to learn about it. */
  datatype Version = Version(value: bytes, created: Revision, modified: Revision, version: nat)

  /**
   The reference meaning of a read: replay every event up to `at` and keep what
   the last one left behind.
   */
  function Replay(log: seq<Event>, key: bytes, at: nat): Option<Version> {
    if log == [] then None
    else
      var e := Last(log);
      var before := Replay(Front(log), key, at);
      if e.m.key != key || e.rev.main > at then before
      else match e.m
        case Delete(_) => None
        case Put(_, value) =>
          match before
          case None => Some(Version(value, e.rev, e.rev, 1))
          case Some(v) => Some(Version(value, v.created, e.rev, v.version + 1))
  }
}
