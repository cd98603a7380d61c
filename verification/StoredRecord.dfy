/** Backend keys and values of revision records, and the applied-position marker. */
module StoredRecord {
  import opened Wrappers
  import opened ByteStrings
  import opened Revisions

  const REVISION_PREFIX: byte := 0x74
  const TOMBSTONE: byte := 0x01
  const APPLIED_KEY: bytes := [0x00, 0x01]

  function BackendKey(r: Revision, tombstone: bool): bytes
    requires r.Valid()
  {
    [REVISION_PREFIX] + Encode(r) + if tombstone then [TOMBSTONE] else []
  }

  function ParseKey(key: bytes): Option<(Revision, bool)> {
    if key == [] || key[0] != REVISION_PREFIX then None
    else
      var rest := key[1..];
      if |rest| == ENCODED_LEN then
        match Decode(rest)
        case Some(r) => Some((r, false))
        case None => None
      else if |rest| == ENCODED_LEN + 1 && rest[ENCODED_LEN] == TOMBSTONE then
        match Decode(rest[..ENCODED_LEN])
        case Some(r) => Some((r, true))
        case None => None
      else None
  }

  /** A key parses to a revision and kind exactly when it is the key built for them. */
  lemma KeyRoundTrip(r: Revision, tombstone: bool, key: bytes)
    requires r.Valid()
    ensures ParseKey(key) == Some((r, tombstone)) <==> key == BackendKey(r, tombstone)
  {
    var built := BackendKey(r, tombstone);
    assert built[1..][..ENCODED_LEN] == Encode(r);
    assert !tombstone ==> built[1..] == Encode(r);
    RevisionRoundTrip(r, Encode(r));
    if ParseKey(key) == Some((r, tombstone)) {
      var rest := key[1..];
      RevisionRoundTrip(r, rest[..ENCODED_LEN]);
      assert rest[..ENCODED_LEN] == if tombstone then rest[..ENCODED_LEN] else rest;
      assert rest == rest[..ENCODED_LEN] + if tombstone then [TOMBSTONE] else [];
      assert key == [key[0]] + rest;
    }
  }

  /** Backend keys order byte-wise exactly as their revisions do, a tombstone's after its plain key. */
  lemma KeyOrder(r: Revision, tr: bool, s: Revision, ts: bool)
    requires r.Valid() && s.Valid()
    ensures Less(BackendKey(r, tr), BackendKey(s, ts)) <==> r.Before(s) || (r == s && !tr && ts)
  {
    var x := if tr then [TOMBSTONE] else [];
    var y := if ts then [TOMBSTONE] else [];
    assert BackendKey(r, tr) == [REVISION_PREFIX] + (Encode(r) + x);
    assert BackendKey(s, ts) == [REVISION_PREFIX] + (Encode(s) + y);
    LessPrefixed([REVISION_PREFIX], Encode(r) + x, Encode(s) + y);
    RevisionOrder(r, s, x, y);
  }

  /** The value stored under a backend key: length-prefixed key, then value. */
  function EncodeRecord(key: bytes, value: bytes): bytes {
    Capacities();
    var len := if |key| < U32_END then |key| else U32_END - 1;
    BigEndian(len, 4) + key + value
  }

  function DecodeRecord(b: bytes): Option<(bytes, bytes)> {
    if |b| < 4 then None
    else
      var len := FromBigEndian(b[..4]);
      var rest := b[4..];
      if len > |rest| then None else Some((rest[..len], rest[len..]))
  }

  /** A stored record reads back as written exactly when its key fits the length field. */
  lemma RecordRoundTrip(key: bytes, value: bytes)
    ensures DecodeRecord(EncodeRecord(key, value)) == Some((key, value)) <==> |key| < U32_END
  {
    Capacities();
    var len := if |key| < U32_END then |key| else U32_END - 1;
    BigEndianRoundTrip(len, 4);
    hide BigEndian, FromBigEndian;
    var b, rest := EncodeRecord(key, value), key + value;
    assert b == BigEndian(len, 4) + rest;
    assert b[..4] == BigEndian(len, 4) && b[4..] == rest && len <= |rest|;
    assert DecodeRecord(b) == Some((rest[..len], rest[len..]));
    if |key| < U32_END {
      assert rest[..len] == key && rest[len..] == value;
    }
  }

  function EncodePosition(n: nat): bytes
    requires n < U64_END
  {
    Capacities();
    BigEndian(n, 8)
  }

  function DecodePosition(b: bytes): Option<nat> {
    if |b| == 8 then Some(FromBigEndian(b)) else None
  }

  lemma PositionRoundTrip(n: nat)
    requires n < U64_END
    ensures DecodePosition(EncodePosition(n)) == Some(n)
  {
    Capacities();
    BigEndianRoundTrip(n, 8);
  }

  // ---- What was not written here ------------------------------------------------------------

  /** A key that does not parse is the key of no revision, and begins with `t` if it is one. */
  lemma ForeignKey(key: bytes)
    ensures ParseKey(key).None? <==> forall r: Revision, t: bool :: r.Valid() ==> key != BackendKey(r, t)
    ensures ParseKey(key).Some? ==>
              && key[0] == 0x74 && |key| == (if ParseKey(key).value.1 then 19 else 18)
              && (ParseKey(key).value.1 ==> key[18] == 0x01)
  {
    if ParseKey(key).Some? {
      var (r, t) := ParseKey(key).value;
      ForeignRevision(if t then key[1..][..17] else key[1..]);
      KeyRoundTrip(r, t, key);
    } else {
      forall r: Revision, t: bool | r.Valid() ensures key != BackendKey(r, t) {
        KeyRoundTrip(r, t, key);
      }
    }
  }

  /** A stored record is malformed exactly if its length field, or the key it states, is cut short. */
  lemma MalformedRecord(b: bytes)
    ensures DecodeRecord(b).None? <==> |b| < 4 || |b| < 4 + FromBigEndian(b[..4])
  {
  }

  /** The position marker is two fixed bytes, its value eight. */
  lemma PositionLayout(b: bytes)
    ensures APPLIED_KEY == [0x00, 0x01] && (DecodePosition(b) == None <==> |b| != 8)
    ensures |b| == 8 ==> DecodePosition(b) == Some(FromBigEndian(b))
  {
  }
}
