/** Key ranges as callers build and advance them. */
module KeyBounds {
  import opened ByteStrings
  import opened OrderedScan

  class Bounds {
    var start: Bound
    var end: Bound

    function View(): Range
      reads this
    {
      Range(start, end)
    }

    constructor (start: Bound, end: Bound)
      ensures View() == Range(start, end)
    {
      this.start, this.end := start, end;
    }

    /** Covers every key. */
    static method All() returns (b: Bounds)
      ensures fresh(b) && !b.View().Panics()
      ensures forall k :: b.View().Contains(k)
    {
      b := new Bounds(Unbounded, Unbounded);
    }

    /** Covers exactly one key. */
    static method Point(key: bytes) returns (b: Bounds)
      ensures fresh(b) && !b.View().Panics()
      ensures forall k :: b.View().Contains(k) <==> k == key
    {
      b := new Bounds(Included(key), Included(key));
      forall k ensures b.View().Contains(k) <==> k == key { LessTotal(k, key); }
      LessIrreflexive(key);
    }

    /** Covers `start` through the keys before `end`. */
    static method Between(start: bytes, end: bytes) returns (b: Bounds)
      ensures fresh(b) && (b.View().Panics() <==> Less(end, start))
      ensures forall k :: b.View().Contains(k) <==> (k == start || Less(start, k)) && Less(k, end)
    {
      b := new Bounds(Included(start), Excluded(end));
      forall k ensures b.View().Contains(k) <==> (k == start || Less(start, k)) && Less(k, end) { LessTotal(k, start); }
    }

    /** Covers every key at or after `start`. */
    static method StartAt(start: bytes) returns (b: Bounds)
      ensures fresh(b) && !b.View().Panics()
      ensures forall k :: b.View().Contains(k) <==> k == start || Less(start, k)
    {
      b := new Bounds(Included(start), Unbounded);
      forall k ensures b.View().Contains(k) <==> k == start || Less(start, k) { LessTotal(k, start); }
    }

    /** Covers every key before `end`. */
    static method EndBefore(end: bytes) returns (b: Bounds)
      ensures fresh(b) && !b.View().Panics()
      ensures forall k :: b.View().Contains(k) <==> Less(k, end)
    {
      b := new Bounds(Unbounded, Excluded(end));
    }

    /** Covers exactly the keys that begin with `prefix`. */
    static method Prefix(prefix: bytes) returns (b: Bounds)
      ensures fresh(b) && !b.View().Panics()
      ensures forall k :: b.View().Contains(k) <==> prefix <= k
    {
      var end := prefix;
      while end != []
        invariant end <= prefix
        invariant AllOnes(prefix[|end|..])
      {
        var last := end[|end| - 1];
        assert last == prefix[|end| - 1] && prefix[|end| - 1..] == [last] + prefix[|end|..];
        end := end[..|end| - 1];
        assert end == prefix[..|end|] && prefix[|end| + 1..] == prefix[|end|..][1..];
        if last < 0xff {
          b := new Bounds(Included(prefix), Excluded(end + [last + 1]));
          UpToSuccessor(prefix, |end|);
          return;
        }
      }
      b := new Bounds(Included(prefix), Unbounded);
      ToTheEnd(prefix);
    }

    /** Moves the start past `key`, leaving the end alone. */
    method AdvancePast(key: bytes)
      modifies this
      ensures View() == Past(old(View()), key)
      ensures end == old(end) && forall k :: View().Contains(k) <==> Less(key, k) && old(View()).BeforeEnd(k)
    {
      start := Excluded(key);
    }
  }

  predicate AllOnes(b: bytes) {
    forall i :: 0 <= i < |b| ==> b[i] == 0xff
  }

  /** Nothing at or after an all-`0xff` string lacks it as a prefix. */
  lemma {:induction false} AllOnesExact(p: bytes, k: bytes)
    requires AllOnes(p)
    ensures !Less(k, p) <==> p <= k
  {
    if p != [] && k != [] {
      AllOnesExact(p[1..], k[1..]);
      assert p == [p[0]] + p[1..] && k == [k[0]] + k[1..];
    }
  }

  /** The successor of `p` at its last byte below `0xff` ends the range of its extensions. */
  lemma {:induction false} SuccessorExact(p: bytes, n: nat, k: bytes)
    requires n < |p| && p[n] < 0xff && AllOnes(p[n + 1..])
    ensures !Less(k, p) && Less(k, p[..n] + [p[n] + 1]) <==> p <= k
  {
    var end := p[..n] + [p[n] + 1];
    if k != [] {
      assert p == [p[0]] + p[1..] && k == [k[0]] + k[1..];
      if n == 0 {
        AllOnesExact(p[1..], k[1..]);
        assert end[1..] == [];
      } else {
        assert p[1..][n..] == p[n + 1..];
        SuccessorExact(p[1..], n - 1, k[1..]);
        assert end[1..] == p[1..][..n - 1] + [p[1..][n - 1] + 1];
      }
    }
  }

  lemma UpToSuccessor(p: bytes, n: nat)
    requires n < |p| && p[n] < 0xff && AllOnes(p[n + 1..])
    ensures var range := Range(Included(p), Excluded(p[..n] + [p[n] + 1]));
            !range.Panics() && forall k :: range.Contains(k) <==> p <= k
  {
    var end := p[..n] + [p[n] + 1];
    forall k ensures !Less(k, p) && Less(k, end) <==> p <= k {
      SuccessorExact(p, n, k);
    }
    LessTotal(p, end);
  }

  lemma ToTheEnd(p: bytes)
    requires AllOnes(p)
    ensures forall k :: Range(Included(p), Unbounded).Contains(k) <==> p <= k
  {
    forall k ensures !Less(k, p) <==> p <= k { AllOnesExact(p, k); }
  }

  /** A range whose scan panics covers nothing. */
  lemma PanickingIsEmpty(range: Range, k: bytes)
    requires range.Panics()
    ensures !range.Contains(k)
  {
    LessTotal(range.start.key, range.end.key);
    LessTotal(k, range.start.key);
    if range.Contains(k) && k != range.start.key && Less(range.end.key, range.start.key) {
      LessTransitive(range.end.key, range.start.key, k);
      LessTotal(range.end.key, k);
    }
  }

  /**
   A half-open pair covers nothing when inverted or equal. Scanning it panics
   exactly when it is inverted, although it is documented to be merely empty.
   */
  lemma HalfOpenPair(start: bytes, end: bytes)
    ensures var range := Range(Included(start), Excluded(end));
            && ((forall k :: !range.Contains(k)) <==> !Less(start, end))
            && (range.Panics() <==> Less(end, start))
  {
    var range := Range(Included(start), Excluded(end));
    LessTotal(start, end);
    if Less(start, end) {
      LessIrreflexive(start);
      assert range.Contains(start);
    } else {
      forall k ensures !range.Contains(k) {
        LessTotal(k, start);
        if Less(k, end) && Less(end, start) { LessTransitive(k, end, start); }
      }
    }
  }
}
