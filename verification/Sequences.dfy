/** Sequences taken apart at their last element, and cut in two. */
module Sequences {

  function Last<T>(s: seq<T>): T
    requires s != []
  {
    s[|s| - 1]
  }

  function Front<T>(s: seq<T>): seq<T>
    requires s != []
  {
    s[..|s| - 1]
  }

  /** All but the first `n` elements. */
  function Drop<T>(s: seq<T>, n: nat): seq<T> {
    if n < |s| then s[n..] else []
  }

  lemma Snoc<T>(s: seq<T>, x: T)
    ensures Front(s + [x]) == s && Last(s + [x]) == x
  {
  }

  lemma DropDrop<T>(s: seq<T>, m: nat, n: nat)
    requires m + n <= |s|
    ensures s[m..][n..] == s[m + n..]
  {
  }

  /** The next element of `b` joins what was already appended to `a`. */
  lemma AppendNext<T>(a: seq<T>, b: seq<T>, i: nat)
    requires i < |b|
    ensures a + b[..i + 1] == (a + b[..i]) + [b[i]]
    ensures a + b == ((a + b[..i]) + [b[i]]) + b[i + 1..]
  {
  }

  lemma Reassociate<T>(a: seq<T>, x: T, b: seq<T>)
    ensures a + ([x] + b) == (a + [x]) + b
  {
  }

  lemma Associate<T>(a: seq<T>, b: seq<T>, c: seq<T>)
    ensures (a + b) + c == a + (b + c)
  {
  }

  /** A sequence appended to `b` is one appended to what `b` was appended to. */
  lemma AppendFront<T>(a: seq<T>, b: seq<T>)
    requires b != []
    ensures a + b == (a + Front(b)) + [Last(b)] && b == Front(b) + [Last(b)]
  {
  }

  /** What a prefix of `a + b` holds past `a` is a prefix of `b`. */
  lemma PastFirst<T>(a: seq<T>, b: seq<T>, left: seq<T>)
    requires a <= left <= a + b
    ensures left == a + left[|a|..] && left[|a|..] <= b
  {
    assert left == (a + b)[..|left|];
    assert left[|a|..] == b[..|left| - |a|];
  }

  lemma MultisetSplit<T>(s: seq<T>, n: nat)
    requires n <= |s|
    ensures multiset(s) == multiset(s[..n]) + multiset(s[n..])
  {
    assert s == s[..n] + s[n..];
  }

  lemma MultisetSnoc<T>(s: seq<T>, x: T)
    ensures multiset(s + [x]) == multiset(s) + multiset{x}
  {
  }

  /** Rearrangements with the same last element are rearrangements before it. */
  lemma FrontsRearrange<T>(a: seq<T>, b: seq<T>)
    requires a != [] && b != [] && Last(a) == Last(b)
    ensures multiset(a) == multiset(b) <==> multiset(Front(a)) == multiset(Front(b))
    ensures a == b <==> Front(a) == Front(b)
  {
    AppendFront([], a);
    AppendFront([], b);
    MultisetSnoc(Front(a), Last(a));
    MultisetSnoc(Front(b), Last(b));
    assert multiset(Front(a)) == multiset(a) - multiset{Last(a)};
    assert multiset(Front(b)) == multiset(b) - multiset{Last(b)};
  }
}
