/**
 Ordered scans of a byte-keyed map: ranges, the ascending listing of a key set,
 and the paged scan that visits a range in chunks.
 */
module OrderedScan {
  import opened Wrappers
  import opened ByteStrings

  datatype Bound = Unbounded | Included(key: bytes) | Excluded(key: bytes)

  datatype Range = Range(start: Bound, end: Bound) {

    predicate AfterStart(k: bytes) {
      match start
      case Unbounded => true
      case Included(s) => !Less(k, s)
      case Excluded(s) => Less(s, k)
    }

    predicate BeforeEnd(k: bytes) {
      match end
      case Unbounded => true
      case Included(e) => !Less(e, k)
      case Excluded(e) => Less(k, e)
    }

    predicate Contains(k: bytes) {
      AfterStart(k) && BeforeEnd(k)
    }

    /** The ranges on which an ordered map's range iterator panics. */
    predicate Panics() {
      && !start.Unbounded? && !end.Unbounded?
      && (Less(end.key, start.key) || (start.key == end.key && start.Excluded? && end.Excluded?))
    }
  }

  type Map = map<bytes, bytes>

  // ---- Ascending listings -------------------------------------------------

  ghost predicate Ascending(s: seq<bytes>) {
    forall i, j {:trigger Less(s[i], s[j])} :: 0 <= i < j < |s| ==> Less(s[i], s[j])
  }

  predicate IsFirst(k: bytes, keys: set<bytes>) {
    k in keys && forall other :: other in keys && other != k ==> Less(k, other)
  }

  lemma {:induction false} FirstExists(keys: set<bytes>)
    requires keys != {}
    ensures exists k :: IsFirst(k, keys)
  {
    var x :| x in keys;
    var rest := keys - {x};
    if rest == {} {
      assert keys == {x};
      assert IsFirst(x, keys);
    } else {
      FirstExists(rest);
      var y :| IsFirst(y, rest);
      LessTotal(x, y);
      if Less(x, y) {
        forall other | other in keys && other != x ensures Less(x, other) {
          if other != y {
            assert other in rest;
            LessTransitive(x, y, other);
          }
        }
        assert IsFirst(x, keys);
      } else {
        assert IsFirst(y, keys);
      }
    }
  }

  lemma FirstUnique(keys: set<bytes>)
    ensures forall a, b :: IsFirst(a, keys) && IsFirst(b, keys) ==> a == b
  {
    forall a, b | IsFirst(a, keys) && IsFirst(b, keys) ensures a == b {
      LessTotal(a, b);
    }
  }

  function First(keys: set<bytes>): (k: bytes)
    requires keys != {}
    ensures IsFirst(k, keys)
  {
    FirstExists(keys);
    FirstUnique(keys);
    var k :| IsFirst(k, keys);
    k
  }

  /** The keys of a set, ascending. */
  function Sorted(keys: set<bytes>): (s: seq<bytes>)
    ensures forall k :: k in s <==> k in keys
  {
    if keys == {} then []
    else
      var k := First(keys);
      [k] + Sorted(keys - {k})
  }

  lemma {:induction false} SortedAscends(keys: set<bytes>)
    ensures Ascending(Sorted(keys))
  {
    if keys != {} {
      var k := First(keys);
      var rest := Sorted(keys - {k});
      SortedAscends(keys - {k});
      forall i, j | 0 <= i < j < |rest| + 1 ensures Less(([k] + rest)[i], ([k] + rest)[j]) {
        if i == 0 {
          assert rest[j - 1] in rest;
        } else {
          assert Less(rest[i - 1], rest[j - 1]);
        }
      }
    }
  }

  lemma AscendingTail(s: seq<bytes>)
    requires Ascending(s) && s != []
    ensures Ascending(s[1..])
    ensures forall k :: k in s[1..] <==> k in s && k != s[0]
  {
    LessIrreflexive(s[0]);
    assert s == [s[0]] + s[1..];
    forall k | k in s[1..] ensures k != s[0] {
      var i :| 0 <= i < |s[1..]| && s[1..][i] == k;
      assert Less(s[0], s[i + 1]);
    }
  }

  /** An ascending listing is determined by its members. */
  lemma {:induction false} AscendingUnique(s: seq<bytes>, t: seq<bytes>)
    requires Ascending(s) && Ascending(t)
    requires forall k :: k in s <==> k in t
    ensures s == t
  {
    if s != [] || t != [] {
      assert s != [] ==> s[0] in t;
      assert t != [] ==> t[0] in s;
      var i :| 0 <= i < |t| && t[i] == s[0];
      var j :| 0 <= j < |s| && s[j] == t[0];
      LessTotal(s[0], t[0]);
      assert s[0] == t[0];
      AscendingTail(s);
      AscendingTail(t);
      AscendingUnique(s[1..], t[1..]);
      assert s == [s[0]] + s[1..] && t == [t[0]] + t[1..];
    }
  }

  /** The keys of `m` inside `range`, ascending. */
  function KeysIn(m: Map, range: Range): seq<bytes> {
    Sorted(set k | k in m && range.Contains(k))
  }

  lemma KeysInMap(m: Map, range: Range)
    ensures forall i :: 0 <= i < |KeysIn(m, range)| ==> KeysIn(m, range)[i] in m
    ensures Ascending(KeysIn(m, range))
  {
    var keys := KeysIn(m, range);
    assert forall i :: 0 <= i < |keys| ==> keys[i] in keys;
    SortedAscends(set k | k in m && range.Contains(k));
  }

  function Pairs(m: Map, keys: seq<bytes>): (pairs: seq<(bytes, bytes)>)
    requires forall i :: 0 <= i < |keys| ==> keys[i] in m
    ensures |pairs| == |keys|
    ensures forall i :: 0 <= i < |keys| ==> pairs[i] == (keys[i], m[keys[i]])
  {
    seq(|keys|, i requires 0 <= i < |keys| => (keys[i], m[keys[i]]))
  }

  /** A range read of an ordered map: ascending pairs, cut at `limit`. */
  function Scan(m: Map, range: Range, limit: Option<nat>): (page: seq<(bytes, bytes)>)
    requires !range.Panics()
  {
    var keys := KeysIn(m, range);
    KeysInMap(m, range);
    Pairs(m, Limited(keys, limit))
  }

  /** The pairs of a map within a range, every one of them, ascending. */
  ghost predicate ListsRange(pairs: seq<(bytes, bytes)>, m: Map, range: Range) {
    && (forall i, j {:trigger Less(pairs[i].0, pairs[j].0)} :: 0 <= i < j < |pairs| ==> Less(pairs[i].0, pairs[j].0))
    && (forall i :: 0 <= i < |pairs| ==>
          range.Contains(pairs[i].0) && pairs[i].0 in m && pairs[i].1 == m[pairs[i].0])
    && (forall k :: k in m && range.Contains(k) ==> exists i :: 0 <= i < |pairs| && pairs[i].0 == k)
  }

  /** The first of them, as many as the limit admits. */
  ghost predicate ListsUpTo(pairs: seq<(bytes, bytes)>, m: Map, range: Range, limit: Option<nat>) {
    exists all :: ListsRange(all, m, range) && pairs <= all &&
                  |pairs| == if limit.Some? && limit.value < |all| then limit.value else |all|
  }

  /** A scan lists the first pairs in its range, as many as its limit. */
  lemma ScanListsUpTo(m: Map, range: Range, limit: Option<nat>)
    requires !range.Panics()
    ensures ListsRange(Scan(m, range, None), m, range)
    ensures ListsUpTo(Scan(m, range, limit), m, range, limit)
  {
    var keys, all := KeysIn(m, range), Scan(m, range, None);
    KeysInMap(m, range);
    forall i, j | 0 <= i < j < |all| ensures Less(all[i].0, all[j].0) {
      assert Less(keys[i], keys[j]);
    }
    forall i | 0 <= i < |all| ensures range.Contains(all[i].0) { assert keys[i] in keys; }
    forall k | k in m && range.Contains(k) ensures exists i :: 0 <= i < |all| && all[i].0 == k {
      assert k in keys;
      var i :| 0 <= i < |keys| && keys[i] == k;
      assert all[i].0 == k;
    }
    assert Scan(m, range, limit) <= all;
  }

  // ---- Paging ---------------------------------------------------------------

  function Past(range: Range, key: bytes): Range {
    range.(start := Excluded(key))
  }

  /** Advancing past the last key of a page leaves exactly the keys the page did not reach. */
  lemma AdvanceSplitsScan(m: Map, range: Range, n: nat)
    requires !range.Panics()
    requires 0 < n <= |KeysIn(m, range)|
    ensures var keys := KeysIn(m, range);
            !Past(range, keys[n - 1]).Panics() && KeysIn(m, Past(range, keys[n - 1])) == keys[n..]
  {
    var keys := KeysIn(m, range);
    KeysInMap(m, range);
    KeysInMap(m, Past(range, keys[n - 1]));
    var last := keys[n - 1];
    assert last in keys;
    var next := Past(range, last);
    assert !next.Panics() by {
      if !range.end.Unbounded? { LessTotal(last, range.end.key); }
    }
    var rest := KeysIn(m, next);
    forall k ensures k in rest <==> k in keys[n..] {
      if k in keys {
        var i :| 0 <= i < |keys| && keys[i] == k;
        LessTotal(last, k);
        if i < n - 1 {
          assert Less(keys[i], keys[n - 1]);
        } else if i >= n {
          assert Less(keys[n - 1], keys[i]);
          assert keys[n..][i - n] == k;
        }
        AscendingDistinct(keys, n, i);
      }
      if k in rest {
        LaterThan(range, last, k);
      }
    }
    assert Ascending(keys[n..]);
    AscendingUnique(rest, keys[n..]);
  }

  /** No key of an ascending listing appears on both sides of a cut. */
  lemma AscendingDistinct(keys: seq<bytes>, n: nat, i: nat)
    requires Ascending(keys) && n <= |keys| && i < |keys|
    ensures keys[i] in keys[n..] <==> n <= i
  {
    if n <= i {
      assert keys[n..][i - n] == keys[i];
    } else if keys[i] in keys[n..] {
      var j :| 0 <= j < |keys[n..]| && keys[n..][j] == keys[i];
      assert Less(keys[i], keys[n + j]);
      LessIrreflexive(keys[i]);
    }
  }

  /** A key after one inside the range is itself after the range's start. */
  lemma LaterThan(range: Range, inside: bytes, k: bytes)
    requires range.AfterStart(inside) && Less(inside, k)
    ensures range.AfterStart(k)
  {
    match range.start
    case Unbounded =>
    case Included(s) =>
      LessTotal(k, s);
      if Less(k, s) {
        LessTransitive(inside, k, s);
        LessTotal(inside, s);
      }
    case Excluded(s) =>
      LessTransitive(s, inside, k);
  }

  lemma PairsSplit(m: Map, keys: seq<bytes>, n: nat)
    requires n <= |keys| && forall i :: 0 <= i < |keys| ==> keys[i] in m
    ensures Pairs(m, keys) == Pairs(m, keys[..n]) + Pairs(m, keys[n..])
  {
  }

  /** Moving past a page shortens what is left. */
  lemma PageShrinks(m: Map, range: Range, page: seq<(bytes, bytes)>, size: nat)
    requires !range.Panics() && size >= 1 && page == Scan(m, range, Some(size)) && page != []
    ensures 0 < |page| <= |KeysIn(m, range)| && page[|page| - 1].0 == KeysIn(m, range)[|page| - 1]
    ensures !Past(range, page[|page| - 1].0).Panics()
    ensures KeysIn(m, Past(range, page[|page| - 1].0)) == KeysIn(m, range)[|page|..]
  {
    AdvanceSplitsScan(m, range, |page|);
  }

  /** What a loop that reads `size` pairs, then advances past the last, sees in all. */
  function PagedScan(m: Map, range: Range, size: nat): (all: seq<(bytes, bytes)>)
    requires !range.Panics() && size >= 1
    decreases |KeysIn(m, range)|
  {
    var page := Scan(m, range, Some(size));
    if page == [] then []
    else
      PageShrinks(m, range, page, size);
      page + PagedScan(m, Past(range, page[|page| - 1].0), size)
  }

  /** A scan is its first page followed by the scan past that page. */
  lemma FirstPage(m: Map, range: Range, page: seq<(bytes, bytes)>, size: nat)
    requires !range.Panics() && size >= 1 && page == Scan(m, range, Some(size)) && page != []
    ensures !Past(range, page[|page| - 1].0).Panics()
    ensures Scan(m, range, None) == page + Scan(m, Past(range, page[|page| - 1].0), None)
  {
    hide KeysIn, Pairs;
    var keys, n := KeysIn(m, range), |page|;
    KeysInMap(m, range);
    PageShrinks(m, range, page, size);
    PairsSplit(m, keys, n);
    assert page == Pairs(m, keys[..n]);
    assert Scan(m, Past(range, page[n - 1].0), None) == Pairs(m, keys[n..]);
  }

  /** Paging is unobservable: any page size sees the one unpaged ascending scan. */
  lemma {:induction false} PagedScanIsScan(m: Map, range: Range, size: nat)
    requires !range.Panics() && size >= 1
    ensures PagedScan(m, range, size) == Scan(m, range, None)
    decreases |KeysIn(m, range)|
  {
    var page := Scan(m, range, Some(size));
    if page != [] {
      PageShrinks(m, range, page, size);
      FirstPage(m, range, page, size);
      PagedScanIsScan(m, Past(range, page[|page| - 1].0), size);
    }
  }
}
