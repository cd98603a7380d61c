/** Byte strings laid end to end, and what a byte cut leaves of them. */
module Joined {
  import opened ByteStrings

  function Join(rs: seq<bytes>): bytes {
    if rs == [] then [] else rs[0] + Join(rs[1..])
  }

  /** How many leading strings lie wholly within the first `n` bytes. */
  function Within(rs: seq<bytes>, n: nat): (k: nat)
    ensures k <= |rs|
  {
    if rs == [] || n < |rs[0]| then 0 else 1 + Within(rs[1..], n - |rs[0]|)
  }

  lemma {:induction false} JoinConcat(a: seq<bytes>, b: seq<bytes>)
    ensures Join(a + b) == Join(a) + Join(b)
  {
    if a == [] {
      assert a + b == b;
    } else {
      calc {
        Join(a + b);
        { assert (a + b)[1..] == a[1..] + b; }
        a[0] + Join(a[1..] + b);
        { JoinConcat(a[1..], b); }
        a[0] + (Join(a[1..]) + Join(b));
        Join(a) + Join(b);
      }
    }
  }

  lemma JoinOne(b: bytes)
    ensures Join([b]) == b
  {
  }

  lemma {:induction false} WithinAfter(a: seq<bytes>, b: seq<bytes>, n: nat)
    ensures Within(a + b, |Join(a)| + n) == |a| + Within(b, n)
  {
    if a == [] {
      assert a + b == b;
    } else {
      WithinAfter(a[1..], b, n);
      assert (a + b)[1..] == a[1..] + b;
    }
  }

  /** The strings within a cut are exactly those that fit it. */
  lemma {:induction false} WithinIsMaximal(rs: seq<bytes>, n: nat)
    requires n <= |Join(rs)|
    ensures var k := Within(rs, n);
            && |Join(rs[..k])| <= n
            && (k < |rs| ==> n < |Join(rs[..k + 1])|)
            && Join(rs[..k]) <= Join(rs)
  {
    if rs != [] {
      if n < |rs[0]| {
        assert rs[..1][1..] == [];
      } else {
        var k := Within(rs[1..], n - |rs[0]|);
        WithinIsMaximal(rs[1..], n - |rs[0]|);
        assert rs[..k + 1][1..] == rs[1..][..k];
        if k + 1 < |rs| { assert rs[..k + 2][1..] == rs[1..][..k + 1]; }
      }
    }
  }

  /** A longer cut holds no fewer strings. */
  lemma {:induction false} WithinRises(rs: seq<bytes>, m: nat, n: nat)
    requires m <= n
    ensures Within(rs, m) <= Within(rs, n)
  {
    if rs != [] && m >= |rs[0]| {
      WithinRises(rs[1..], m - |rs[0]|, n - |rs[0]|);
    }
  }

  lemma PrefixesOfOne(x: bytes, y: bytes, whole: bytes)
    requires x <= whole && y <= whole && |x| <= |y|
    ensures x <= y && (|x| == |y| <==> x == y)
  {
    assert x == whole[..|x|] && y == whole[..|y|];
  }

  /** What a byte prefix of the second of two logs leaves of both. */
  lemma CutOfSecond(a: seq<bytes>, b: seq<bytes>, tail: bytes)
    requires tail <= Join(b)
    ensures var k := Within(b, |tail|);
            && Within(a + b, |Join(a)| + |tail|) == |a| + k
            && Join(a + b[..k]) == Join(a) + Join(b[..k])
            && Join(b[..k]) <= tail
            && Join(a) + tail <= Join(a + b)
            && (|Join(a + b[..k])| == |Join(a)| + |tail| <==> Join(b[..k]) == tail)
  {
    var k := Within(b, |tail|);
    JoinConcat(a, b);
    JoinConcat(a, b[..k]);
    WithinAfter(a, b, |tail|);
    WithinIsMaximal(b, |tail|);
    PrefixesOfOne(Join(b[..k]), tail, Join(b));
    assert Join(b) == tail + Join(b)[|tail|..];
  }
}
