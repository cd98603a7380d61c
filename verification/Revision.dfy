/** Revisions, and the order-preserving encoding the backend stores them under. */
module Revisions {
  import opened Wrappers
  import opened ByteStrings

  const I64_MAX: nat := 0x7fff_ffff_ffff_ffff
  const SEPARATOR: byte := 0x5f
  const ENCODED_LEN: nat := 17

  datatype Revision = Revision(main: nat, sub: nat) {

    /** Whether the wire format can carry this revision. */
    predicate Valid() {
      main <= I64_MAX && sub <= I64_MAX
    }

    predicate Before(other: Revision) {
      main < other.main || (main == other.main && sub < other.sub)
    }

    function NextMain(): Revision
      requires main < I64_MAX
    {
      Revision(main + 1, 0)
    }

    function Max(other: Revision): Revision {
      if this.Before(other) then other else this
    }
  }

  const ZERO := Revision(0, 0)

  function New(main: nat, sub: nat): (r: Option<Revision>) {
    if main > I64_MAX || sub > I64_MAX then None else Some(Revision(main, sub))
  }

  function Encode(r: Revision): (b: bytes)
    requires r.Valid()
    ensures |b| == ENCODED_LEN
  {
    Capacities();
    BigEndian(r.main, 8) + [SEPARATOR] + BigEndian(r.sub, 8)
  }

  function Decode(b: bytes): Option<Revision> {
    if |b| != ENCODED_LEN || b[8] != SEPARATOR then None
    else New(FromBigEndian(b[..8]), FromBigEndian(b[9..]))
  }

  /** Decoding inverts encoding, and accepts nothing encoding could not have produced. */
  lemma RevisionRoundTrip(r: Revision, b: bytes)
    requires r.Valid()
    ensures Decode(b) == Some(r) <==> b == Encode(r)
  {
    Capacities();
    BigEndianRoundTrip(r.main, 8);
    BigEndianRoundTrip(r.sub, 8);
    var e := Encode(r);
    assert e[..8] == BigEndian(r.main, 8) && e[9..] == BigEndian(r.sub, 8);
    if Decode(b) == Some(r) {
      BigEndianOnto(b[..8]);
      BigEndianOnto(b[9..]);
      assert b == b[..8] + [b[8]] + b[9..];
    }
  }

  /** Byte order of encoded revisions is revision order, whatever bytes follow them. */
  lemma RevisionOrder(r: Revision, s: Revision, x: bytes, y: bytes)
    requires r.Valid() && s.Valid()
    ensures Less(Encode(r) + x, Encode(s) + y) <==> r.Before(s) || (r == s && Less(x, y))
    ensures Encode(r) == Encode(s) ==> r == s
  {
    Capacities();
    var m, n := BigEndian(r.main, 8), BigEndian(s.main, 8);
    var p, q := BigEndian(r.sub, 8), BigEndian(s.sub, 8);
    BigEndianOrder(r.main, s.main, 8);
    BigEndianOrder(r.sub, s.sub, 8);
    assert Encode(r) + x == m + ([SEPARATOR] + (p + x));
    assert Encode(s) + y == n + ([SEPARATOR] + (q + y));
    LessExtended(m, n, [SEPARATOR] + (p + x), [SEPARATOR] + (q + y));
    LessPrefixed([SEPARATOR], p + x, q + y);
    LessExtended(p, q, x, y);
    RevisionRoundTrip(r, Encode(r));
    RevisionRoundTrip(s, Encode(s));
  }

  /** What decodes is seventeen bytes with an underscore in the middle and both numbers in range. */
  lemma ForeignRevision(b: bytes)
    ensures Decode(b).None? <==>
            || |b| != 17 || b[8] != 0x5f
            || FromBigEndian(b[..8]) > 0x7fff_ffff_ffff_ffff || FromBigEndian(b[9..]) > 0x7fff_ffff_ffff_ffff
    ensures Decode(b).Some? ==>
              Decode(b).value == Revision(FromBigEndian(b[..8]), FromBigEndian(b[9..])) && Decode(b).value.Valid()
  {
  }
}
