/** What each change to the segment files does to the log they hold. */
module LogShapes {
  import opened Sequences
  import opened ByteStrings
  import opened Mutations
  import opened Frames
  import opened LogRecords
  import opened Recovery

  /** The sealed segments, then the active one. */
  function Listing(sealed: seq<File>, first: nat, data: bytes): (files: seq<File>)
    ensures files != []
  {
    sealed + [File(first, data)]
  }

  lemma ListingEnds(sealed: seq<File>, first: nat, data: bytes)
    ensures Last(Listing(sealed, first, data)) == File(first, data)
    ensures |Listing(sealed, first, data)| == |sealed| + 1
    ensures forall i :: 0 <= i < |sealed| ==> Listing(sealed, first, data)[i] == sealed[i]
  {
  }

  /** The active segment holds the end of the log, then the tail. */
  lemma ActiveHolds(crc: Crc, sealed: seq<File>, first: nat, data: bytes, log: seq<Mutation>, tail: bytes)
    requires HoldsLog(crc, Listing(sealed, first, data), log, tail)
    ensures AllEncodable(log) && first <= |log| && data == EncodeAll(crc, log[first..]) + tail
    ensures HoldsLog(crc, Listing(sealed, first, EncodeAll(crc, log[first..])), log, [])
  {
    ListingEnds(sealed, first, data);
    TailChanges(crc, sealed, first, data, log, tail, []);
    assert EncodeAll(crc, log[first..]) + [] == EncodeAll(crc, log[first..]);
  }

  /** Other bytes may come to lie past the log. */
  lemma TailChanges(crc: Crc, sealed: seq<File>, first: nat, data: bytes, log: seq<Mutation>, tail: bytes, next: bytes)
    requires HoldsLog(crc, Listing(sealed, first, data), log, tail)
    ensures AllEncodable(log) && first <= |log|
    ensures HoldsLog(crc, Listing(sealed, first, EncodeAll(crc, log[first..]) + next), log, next)
  {
    hide EncodeAll;
    var was, now := Listing(sealed, first, data), Listing(sealed, first, EncodeAll(crc, log[first..]) + next);
    ListingEnds(sealed, first, data);
    ListingEnds(sealed, first, EncodeAll(crc, log[first..]) + next);
    forall i | 0 <= i < |now| - 1 ensures Sealed(crc, now, log, i) {
      assert Sealed(crc, was, log, i);
    }
  }

  /** Records appended to the active segment join the log. */
  lemma LogGrows(crc: Crc, sealed: seq<File>, first: nat, data: bytes, log: seq<Mutation>, more: seq<Mutation>,
                 tail: bytes)
    requires HoldsLog(crc, Listing(sealed, first, data), log, []) && AllEncodable(more)
    ensures AllEncodable(log + more)
    ensures HoldsLog(crc, Listing(sealed, first, data + EncodeAll(crc, more) + tail), log + more, tail)
  {
    var was, now := Listing(sealed, first, data), Listing(sealed, first, data + EncodeAll(crc, more) + tail);
    ListingEnds(sealed, first, data);
    ListingEnds(sealed, first, data + EncodeAll(crc, more) + tail);
    hide EncodeAll;
    assert (log + more)[first..] == log[first..] + more;
    EncodeConcat(crc, log[first..], more);
    forall i | 0 <= i < |now| - 1 ensures Sealed(crc, now, log + more, i) {
      assert Sealed(crc, was, log, i);
      assert (log + more)[was[i].first..was[i + 1].first] == log[was[i].first..was[i + 1].first];
    }
  }

  /** A non-empty active segment with nothing past the log is sealed by starting another. */
  lemma LogRolls(crc: Crc, sealed: seq<File>, first: nat, data: bytes, log: seq<Mutation>)
    requires HoldsLog(crc, Listing(sealed, first, data), log, []) && data != []
    ensures HoldsLog(crc, Listing(Listing(sealed, first, data), |log|, []), log, [])
  {
    var was, now := Listing(sealed, first, data), Listing(Listing(sealed, first, data), |log|, []);
    ListingEnds(sealed, first, data);
    ListingEnds(was, |log|, []);
    assert log[first..|log|] == log[first..];
    assert data == EncodeAll(crc, log[first..]);
    forall i | 0 <= i < |now| - 1 ensures Sealed(crc, now, log, i) {
      if i < |sealed| {
        assert Sealed(crc, was, log, i);
      }
    }
  }

  /** A log survives losing its first segment, as far as it then reaches. */
  lemma LogDrops(crc: Crc, files: seq<File>, log: seq<Mutation>, tail: bytes)
    requires HoldsLog(crc, files, log, tail) && |files| > 1
    ensures HoldsLog(crc, files[1..], log, tail)
  {
    var now := files[1..];
    forall i | 0 <= i < |now| - 1 ensures Sealed(crc, now, log, i) {
      assert Sealed(crc, files, log, i + 1);
    }
  }
}
