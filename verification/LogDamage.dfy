/**
 Damaged logs: which bytes no record can begin with, and that recovery refuses a log
 holding them rather than cut it short.
 */
module LogDamage {
  import opened Wrappers
  import opened Sequences
  import opened ByteStrings
  import opened Mutations
  import opened Frames
  import opened LogRecords
  import opened Recovery
  import Stores

  // ---- Which bytes are damaged ------------------------------------------------------------------

  /** The header's second word: how long the payload after it is. */
  function StatedLength(b: bytes): nat
    requires 8 <= |b|
  {
    0x100_0000 * b[4] as nat + 0x1_0000 * b[5] as nat + 0x100 * b[6] as nat + b[7] as nat
  }

  /** Its first: the checksum of the length and the payload. */
  function StatedChecksum(b: bytes): nat
    requires 8 <= |b|
  {
    0x100_0000 * b[0] as nat + 0x1_0000 * b[1] as nat + 0x100 * b[2] as nat + b[3] as nat
  }

  lemma HeaderFields(b: bytes)
    requires 8 <= |b|
    ensures FromBigEndian(b[4..8]) == StatedLength(b) && FromBigEndian(b[..4]) == StatedChecksum(b)
  {
    WordValue(b[4..8]);
    WordValue(b[..4]);
  }

  /**
   A frame reads as corrupt exactly if it states more than 64 MiB, or all of it is there and
   the checksum it states is not that of its length field and payload; as truncated exactly
   if its header or a plausible payload is cut short.
   */
  lemma CorruptFrame(crc: Crc, b: bytes)
    ensures Decode(crc, b) == Err(Corrupt) <==>
            && 8 <= |b|
            && var len := StatedLength(b);
               len > 67108864 || (8 + len <= |b| && StatedChecksum(b) != crc(b[4..8 + len]))
    ensures Decode(crc, b) == Err(Truncated) <==>
            |b| < 8 || (StatedLength(b) <= 67108864 && |b| < 8 + StatedLength(b))
    ensures Decode(crc, b).Ok? ==>
              && 8 <= |b| && 8 + StatedLength(b) <= |b|
              && Decode(crc, b).value == (b[8..8 + StatedLength(b)], 8 + StatedLength(b))
  {
    if 8 <= |b| {
      HeaderFields(b);
      var len := StatedLength(b);
      if len <= 67108864 && 8 + len <= |b| {
        assert b[4..8] + b[8..][..len] == b[4..8 + len] && b[8..][..len] == b[8..8 + len];
        Capacities();
        WordRoundTrip(crc(b[4..8 + len]));
        BigEndianOnto(b[..4]);
      }
    }
  }

  /** A payload is that of some mutation exactly if each of its fields is sound. */
  lemma CorruptPayload(p: bytes)
    ensures DecodePayload(p) == Err(Corrupt) <==>
            || |p| < 6 || p[0] != 1 || (p[1] != 1 && p[1] != 2)
            || var end := 6 + FromBigEndian(p[2..6]); |p| < end || (p[1] == 2 && end < |p|)
    ensures DecodePayload(p) != Err(Truncated)
    ensures DecodePayload(p).Ok? ==>
              && 6 <= |p|
              && var end := 6 + FromBigEndian(p[2..6]);
                 && end <= |p|
                 && DecodePayload(p).value == if p[1] == 1 then Put(p[6..end], p[end..]) else Delete(p[6..end])
  {
    if DecodePayload(p).Ok? {
      var len := FromBigEndian(p[2..6]);
      assert p[6..][..len] == p[6..6 + len] && p[6..][len..] == p[6 + len..];
    }
  }

  /** A record reads as corrupt exactly if its frame does, or a sound frame's payload does. */
  lemma CorruptRecord(crc: Crc, b: bytes)
    ensures DecodeRecord(crc, b) == Err(Corrupt) <==>
            || Decode(crc, b) == Err(Corrupt)
            || (Decode(crc, b).Ok? && 8 <= |b| && 8 + StatedLength(b) <= |b| &&
                DecodePayload(b[8..8 + StatedLength(b)]) == Err(Corrupt))
    ensures DecodeRecord(crc, b) == Err(Truncated) <==> Decode(crc, b) == Err(Truncated)
  {
    CorruptFrame(crc, b);
    if Decode(crc, b).Ok? {
      CorruptPayload(Decode(crc, b).value.0);
    }
  }

  // ---- Reading up to the damage --------------------------------------------------------------------

  /** How reading goes on after some records depends only on what follows them. */
  lemma {:induction false} ReadsPast(crc: Crc, ms: seq<Mutation>, b: bytes)
    requires AllEncodable(ms)
    ensures var rest := Parse(crc, b);
            Parse(crc, EncodeAll(crc, ms) + b) ==
            Parsed(ms + rest.records, |EncodeAll(crc, ms)| + rest.valid, rest.end)
  {
    hide EncodeAll, Parse, RecordOf;
    if ms == [] {
      NothingEncoded(crc);
      assert [] + b == b && [] + Parse(crc, b).records == Parse(crc, b).records;
    } else {
      FirstRecord(crc, ms);
      ReadsPast(crc, ms[1..], b);
      ParseOne(crc, ms[0], EncodeAll(crc, ms[1..]) + b);
      assert EncodeAll(crc, ms) + b == RecordOf(crc, ms[0]) + (EncodeAll(crc, ms[1..]) + b);
      assert ms + Parse(crc, b).records == [ms[0]] + (ms[1..] + Parse(crc, b).records);
    }
  }

  lemma NothingEncoded(crc: Crc)
    ensures EncodeAll(crc, []) == []
  {
  }

  /** Reading ends cleanly at the end, torn at a truncated record, damaged at a corrupt one. */
  lemma StopsAt(crc: Crc, b: bytes)
    requires b == [] || DecodeRecord(crc, b).Err?
    ensures Parse(crc, b) ==
            Parsed([], 0, if b == [] then Clean
                          else if DecodeRecord(crc, b) == Err(Truncated) then Torn
                          else Damaged)
    ensures b != [] ==> DecodeRecord(crc, b) == Err(Truncated) || DecodeRecord(crc, b) == Err(Corrupt)
  {
    if b != [] {
      match DecodeRecord(crc, b).error
      case Truncated =>
      case Corrupt =>
    }
  }

  /**
   Any bytes are some records, then nothing, or a truncated or corrupt one; reading them
   yields those records and says which.
   */
  lemma {:induction false} ReadsAs(crc: Crc, data: bytes) returns (ms: seq<Mutation>, b: bytes)
    ensures AllEncodable(ms) && data == EncodeAll(crc, ms) + b && (b == [] || DecodeRecord(crc, b).Err?)
    ensures Parse(crc, data).records == ms && Parse(crc, data).valid == |EncodeAll(crc, ms)|
    ensures Parse(crc, data).end.Clean? <==> b == []
    ensures Parse(crc, data).end.Torn? <==> b != [] && DecodeRecord(crc, b) == Err(Truncated)
    ensures Parse(crc, data).end.Damaged? <==> b != [] && DecodeRecord(crc, b) == Err(Corrupt)
    decreases |data|
  {
    hide DecodeRecord, EncodeAll, Parse, RecordOf;
    if data == [] || DecodeRecord(crc, data).Err? {
      ms, b := [], data;
      NothingEncoded(crc);
      StopsAt(crc, data);
    } else {
      var (m, width) := DecodeRecord(crc, data).value;
      DecodedIsRecord(crc, data);
      var later;
      later, b := ReadsAs(crc, data[width..]);
      ms := [m] + later;
      FirstRecord(crc, ms);
      assert ms[1..] == later;
      assert data == RecordOf(crc, m) + (EncodeAll(crc, later) + b);
      assert data == (RecordOf(crc, m) + EncodeAll(crc, later)) + b;
    }
    ReadsPast(crc, ms, b);
    StopsAt(crc, b);
    assert ms + [] == ms;
  }

  // ---- Recovery refuses damage -----------------------------------------------------------------------

  /** A segment that recovery cannot accept: damaged, or torn with another after it. */
  ghost predicate Unsound(crc: Crc, files: seq<File>, j: nat) {
    && j < |files|
    && exists ms, b :: AllEncodable(ms) && b != [] && files[j].data == EncodeAll(crc, ms) + b &&
                       (DecodeRecord(crc, b) == Err(Corrupt) ||
                        (DecodeRecord(crc, b) == Err(Truncated) && j < |files| - 1))
  }

  lemma {:induction false} ScanRefuses(crc: Crc, files: seq<File>, applied: nat, n: nat)
    requires n <= |files|
    ensures ScanFiles(crc, files, applied, n) == Err(CorruptLog) <==>
            exists j :: 0 <= j < n && (Parse(crc, files[j].data).end.Damaged? ||
                                       (Parse(crc, files[j].data).end.Torn? && j < |files| - 1))
    ensures ScanFiles(crc, files, applied, n).Err? ==> ScanFiles(crc, files, applied, n) == Err(CorruptLog)
  {
    hide Parse, NewRecords;
    if n > 0 {
      ScanRefuses(crc, files, applied, n - 1);
    }
  }

  lemma UnsoundReads(crc: Crc, files: seq<File>, j: nat)
    requires j < |files|
    ensures Unsound(crc, files, j) <==>
            Parse(crc, files[j].data).end.Damaged? || (Parse(crc, files[j].data).end.Torn? && j < |files| - 1)
  {
    hide DecodeRecord, EncodeAll, Parse;
    var ms, b := ReadsAs(crc, files[j].data);
    if Unsound(crc, files, j) {
      var xs, x :| AllEncodable(xs) && x != [] && files[j].data == EncodeAll(crc, xs) + x &&
                   (DecodeRecord(crc, x) == Err(Corrupt) ||
                    (DecodeRecord(crc, x) == Err(Truncated) && j < |files| - 1));
      ReadsPast(crc, xs, x);
      StopsAt(crc, x);
    }
  }

  /**
   Recovery refuses a log as corrupt if and only if some segment holds, after complete
   records, bytes that read as corrupt, or one but the last ends in a truncated record, or
   the store has applied more than the last segment reaches.
   */
  lemma DamageIsRefused(crc: Crc, files: seq<File>, s: Stores.Store, applyOk: bool)
    ensures RecoverOf(crc, files, s, applyOk) == Err(CorruptLog) <==>
            || (exists j :: Unsound(crc, files, j))
            || (if files == [] then 0 else Last(files).first + |Parse(crc, Last(files).data).records|) < s.applied
  {
    hide DecodeRecord, EncodeAll, Parse, NewRecords, Stores.ApplyTo, Unsound;
    ScanRefuses(crc, files, s.applied, |files|);
    forall j: nat | j < |files|
      ensures Unsound(crc, files, j) <==>
              Parse(crc, files[j].data).end.Damaged? || (Parse(crc, files[j].data).end.Torn? && j < |files| - 1)
    {
      UnsoundReads(crc, files, j);
    }
    forall j: nat | Unsound(crc, files, j) ensures j < |files| { UnsoundIsThere(crc, files, j); }
  }

  lemma UnsoundIsThere(crc: Crc, files: seq<File>, j: nat)
    requires Unsound(crc, files, j)
    ensures j < |files|
  {
  }

  /** So damage past the log in any of its segments is refused, whatever the store holds. */
  lemma DamagedLogIsRefused(crc: Crc, files: seq<File>, log: seq<Mutation>, j: nat, b: bytes, s: Stores.Store,
                            applyOk: bool)
    requires HoldsLog(crc, files, log, []) && j < |files| && b != [] && DecodeRecord(crc, b) == Err(Corrupt)
    ensures var damaged := files[j := File(files[j].first, files[j].data + b)];
            RecoverOf(crc, damaged, s, applyOk) == Err(CorruptLog)
  {
    hide DecodeRecord, EncodeAll, RecoverOf, Parse;
    var damaged := files[j := File(files[j].first, files[j].data + b)];
    DamageIsRefused(crc, damaged, s, applyOk);
    var upto := if j < |files| - 1 then files[j + 1].first else |log|;
    if j < |files| - 1 {
      assert Sealed(crc, files, log, j);
    } else {
      LogEnds(crc, files, log, []);
      assert log[files[j].first..] == log[files[j].first..upto];
      assert files[j].data == EncodeAll(crc, log[files[j].first..]);
    }
    assert damaged[j].data == EncodeAll(crc, log[files[j].first..upto]) + b;
    assert Unsound(crc, damaged, j);
  }

  /** An implausible length alone in a first segment: refused, and not cut away. */
  lemma ImplausibleIsRefused(crc: Crc, s: Stores.Store, applyOk: bool)
    ensures RecoverOf(crc, [File(0, [0, 0, 0, 0, 255, 255, 255, 255])], s, applyOk) == Err(CorruptLog)
  {
    hide DecodeRecord, EncodeAll, RecoverOf, Parse;
    var b: bytes := [0, 0, 0, 0, 255, 255, 255, 255];
    var files := [File(0, b)];
    CorruptFrame(crc, b);
    CorruptRecord(crc, b);
    NothingEncoded(crc);
    assert b == EncodeAll(crc, []) + b && b != [];
    assert Unsound(crc, files, 0);
    DamageIsRefused(crc, files, s, applyOk);
  }
}
