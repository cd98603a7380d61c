/**
 Byte strings: the unsigned byte-wise order every ordered structure of the
 store uses, and the fixed-width big-endian numbers its encodings embed.
 */
module ByteStrings {

  newtype byte = x: int | 0 <= x < 256

  type bytes = seq<byte>

  /** Unsigned byte-wise order: a proper prefix comes first. */
  predicate Less(a: bytes, b: bytes) {
    if b == [] then false
    else if a == [] then true
    else a[0] < b[0] || (a[0] == b[0] && Less(a[1..], b[1..]))
  }

  /** The first difference decides, or the end of the shorter string. */
  ghost predicate DecidedAt(a: bytes, b: bytes, i: nat) {
    i <= |a| && i < |b| && a[..i] == b[..i] && (i == |a| || a[i] < b[i])
  }

  lemma {:induction false} LessMeans(a: bytes, b: bytes)
    ensures Less(a, b) <==> exists i :: DecidedAt(a, b, i)
  {
    if b != [] && a != [] {
      LessMeans(a[1..], b[1..]);
      if i: nat :| DecidedAt(a[1..], b[1..], i) && a[0] == b[0] {
        assert a[..i + 1] == [a[0]] + a[1..][..i] && b[..i + 1] == [b[0]] + b[1..][..i];
        assert DecidedAt(a, b, i + 1);
      }
      if a[0] < b[0] { assert DecidedAt(a, b, 0); }
      if i: nat :| DecidedAt(a, b, i) && i > 0 {
        assert a[1..][..i - 1] == a[..i][1..] && b[1..][..i - 1] == b[..i][1..] && a[..i][0] == b[..i][0];
        assert DecidedAt(a[1..], b[1..], i - 1);
      }
    } else if b != [] {
      assert DecidedAt(a, b, 0);
    }
  }

  lemma {:induction false} LessIrreflexive(a: bytes)
    ensures !Less(a, a)
  {
    if a != [] {
      LessIrreflexive(a[1..]);
    }
  }

  lemma {:induction false} LessTransitive(a: bytes, b: bytes, c: bytes)
    requires Less(a, b) && Less(b, c)
    ensures Less(a, c)
  {
    if a != [] && a[0] == b[0] && b[0] == c[0] {
      LessTransitive(a[1..], b[1..], c[1..]);
    }
  }

  /** Exactly one of the two directions holds between distinct byte strings. */
  lemma {:induction false} LessTotal(a: bytes, b: bytes)
    ensures a == b || Less(a, b) || Less(b, a)
    ensures !(Less(a, b) && Less(b, a))
    ensures a == b ==> !Less(a, b)
  {
    if a != [] && b != [] {
      LessTotal(a[1..], b[1..]);
      assert a == [a[0]] + a[1..] && b == [b[0]] + b[1..];
    }
  }

  /** Common prefixes do not influence the order. */
  lemma {:induction false} LessPrefixed(p: bytes, a: bytes, b: bytes)
    ensures Less(p + a, p + b) <==> Less(a, b)
  {
    if p == [] {
      assert p + a == a && p + b == b;
    } else {
      LessPrefixed(p[1..], a, b);
      assert (p + a)[1..] == p[1..] + a && (p + b)[1..] == p[1..] + b;
    }
  }

  /** Strings of one width compare by their first difference, whatever follows. */
  lemma {:induction false} LessExtended(a: bytes, b: bytes, x: bytes, y: bytes)
    requires |a| == |b|
    ensures Less(a + x, b + y) <==> Less(a, b) || (a == b && Less(x, y))
  {
    if a == [] {
      assert a + x == x && b + y == y;
    } else {
      LessExtended(a[1..], b[1..], x, y);
      assert (a + x)[1..] == a[1..] + x && (b + y)[1..] == b[1..] + y;
      assert a == [a[0]] + a[1..] && b == [b[0]] + b[1..];
    }
  }

  // ---- Big-endian numbers -------------------------------------------------

  function Capacity(width: nat): nat {
    if width == 0 then 1 else 256 * Capacity(width - 1)
  }

  const U32_END: nat := 0x1_0000_0000
  const U64_END: nat := 0x1_0000_0000_0000_0000

  lemma Capacities()
    ensures Capacity(4) == U32_END && Capacity(8) == U64_END
  {
    assert Capacity(2) == 0x1_0000;
    assert Capacity(6) == 0x1_0000_0000_0000;
  }

  function BigEndian(n: nat, width: nat): (b: bytes)
    requires n < Capacity(width)
    ensures |b| == width
  {
    if width == 0 then [] else BigEndian(n / 256, width - 1) + [(n % 256) as byte]
  }

  function FromBigEndian(b: bytes): nat {
    if b == [] then 0
    else 256 * FromBigEndian(b[..|b| - 1]) + b[|b| - 1] as nat
  }

  /** Four bytes, the most significant first. */
  lemma WordValue(b: bytes)
    requires |b| == 4
    ensures FromBigEndian(b) ==
            0x100_0000 * b[0] as nat + 0x1_0000 * b[1] as nat + 0x100 * b[2] as nat + b[3] as nat
  {
    assert b[..3][..2] == b[..2] && b[..2][..1] == b[..1] && b[..1][..0] == [];
    assert FromBigEndian(b[..1]) == b[0] as nat;
    assert FromBigEndian(b[..2]) == 0x100 * b[0] as nat + b[1] as nat;
  }

  lemma {:induction false} FromBigEndianBound(b: bytes)
    ensures FromBigEndian(b) < Capacity(|b|)
  {
    if b != [] {
      FromBigEndianBound(b[..|b| - 1]);
    }
  }

  lemma {:induction false} BigEndianRoundTrip(n: nat, width: nat)
    requires n < Capacity(width)
    ensures FromBigEndian(BigEndian(n, width)) == n
  {
    if width != 0 {
      BigEndianRoundTrip(n / 256, width - 1);
      var b := BigEndian(n, width);
      assert b[..|b| - 1] == BigEndian(n / 256, width - 1);
    }
  }

  lemma {:induction false} BigEndianOnto(b: bytes)
    ensures FromBigEndian(b) < Capacity(|b|)
    ensures BigEndian(FromBigEndian(b), |b|) == b
  {
    FromBigEndianBound(b);
    if b != [] {
      BigEndianOnto(b[..|b| - 1]);
      assert b == b[..|b| - 1] + [b[|b| - 1]];
    }
  }

  /** Byte order of fixed-width big-endian numbers is numeric order. */
  lemma {:induction false} BigEndianOrder(m: nat, n: nat, width: nat)
    requires m < Capacity(width) && n < Capacity(width)
    ensures Less(BigEndian(m, width), BigEndian(n, width)) <==> m < n
    ensures BigEndian(m, width) == BigEndian(n, width) ==> m == n
  {
    BigEndianRoundTrip(m, width);
    BigEndianRoundTrip(n, width);
    if width != 0 {
      BigEndianOrder(m / 256, n / 256, width - 1);
      LessExtended(BigEndian(m / 256, width - 1), BigEndian(n / 256, width - 1),
                   [(m % 256) as byte], [(n % 256) as byte]);
    }
  }
}
