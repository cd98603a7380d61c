/** Mutations as framed log records, and the log as their concatenation. */
module LogRecords {
  import opened Wrappers
  import opened ByteStrings
  import opened Mutations
  import opened Frames
  import opened Joined

  const VERSION: byte := 1
  const PUT: byte := 1
  const DELETE: byte := 2

  /** A mutation whose record fits the format. */
  predicate Encodable(m: Mutation) {
    |m.key| < U32_END && 6 + |m.key| + |m.Payload()| <= MAX_PAYLOAD_LEN
  }

  function PayloadOf(m: Mutation): bytes
    requires |m.key| < U32_END
  {
    [VERSION, if m.Put? then PUT else DELETE] + Word(|m.key|) + m.key + m.Payload()
  }

  function RecordOf(crc: Crc, m: Mutation): (b: bytes)
    requires Encodable(m)
    ensures |b| == HEADER_LEN + 6 + |m.key| + |m.Payload()|
  {
    FrameOf(crc, PayloadOf(m))
  }

  function DecodePayload(p: bytes): Result<Mutation, FrameError> {
    if |p| < 6 || p[0] != VERSION then Err(Corrupt)
    else
      var keyLen := FromBigEndian(p[2..6]);
      var rest := p[6..];
      if keyLen > |rest| then Err(Corrupt)
      else if p[1] == PUT then Ok(Put(rest[..keyLen], rest[keyLen..]))
      else if p[1] == DELETE && rest[keyLen..] == [] then Ok(Delete(rest[..keyLen]))
      else Err(Corrupt)
  }

  /** The mutation at the start of `b`, and its record's width. */
  function DecodeRecord(crc: Crc, b: bytes): (r: Result<(Mutation, nat), FrameError>)
    ensures r.Ok? ==> HEADER_LEN <= r.value.1 <= |b|
  {
    match Decode(crc, b)
    case Err(e) => Err(e)
    case Ok((payload, width)) =>
      match DecodePayload(payload)
      case Err(e) => Err(e)
      case Ok(m) => Ok((m, width))
  }

  lemma PayloadRoundTrip(m: Mutation)
    requires |m.key| < U32_END
    ensures DecodePayload(PayloadOf(m)) == Ok(m)
  {
    var p, rest := PayloadOf(m), m.key + m.Payload();
    WordRoundTrip(|m.key|);
    assert p == [VERSION, if m.Put? then PUT else DELETE] + Word(|m.key|) + rest;
    assert p[2..6] == Word(|m.key|) && p[6..] == rest;
    assert rest[..|m.key|] == m.key && rest[|m.key|..] == m.Payload();
  }

  /** A record decodes to its mutation and width, whatever follows it. */
  lemma RecordRoundTrip(crc: Crc, m: Mutation, more: bytes)
    requires Encodable(m)
    ensures DecodeRecord(crc, RecordOf(crc, m) + more) == Ok((m, |RecordOf(crc, m)|))
  {
    hide Decode, FrameOf, DecodePayload;
    FrameRoundTrip(crc, PayloadOf(m), more);
    PayloadRoundTrip(m);
  }

  /** Every proper prefix of a record reads as truncated. */
  lemma TornRecord(crc: Crc, m: Mutation, n: nat)
    requires Encodable(m) && n < |RecordOf(crc, m)|
    ensures DecodeRecord(crc, RecordOf(crc, m)[..n]) == Err(Truncated)
  {
    TornFrame(crc, PayloadOf(m), n);
  }

  lemma DecodedPayload(p: bytes)
    ensures DecodePayload(p).Ok? ==>
              |DecodePayload(p).value.key| < U32_END && p == PayloadOf(DecodePayload(p).value)
  {
    if DecodePayload(p).Ok? {
      var m := DecodePayload(p).value;
      Capacities();
      BigEndianOnto(p[2..6]);
      assert p == p[..2] + p[2..6] + p[6..];
      assert p[6..] == m.key + m.Payload();
      assert p[..2] == [p[0], p[1]];
    }
  }

  /** Nothing decodes but a record this encoding writes. */
  lemma DecodedIsRecord(crc: Crc, b: bytes)
    ensures var r := DecodeRecord(crc, b);
            r.Ok? ==> Encodable(r.value.0) && r.value.1 <= |b| && b[..r.value.1] == RecordOf(crc, r.value.0)
  {
    DecodedIsFrame(crc, b);
    if DecodeRecord(crc, b).Ok? {
      DecodedPayload(Decode(crc, b).value.0);
    }
  }

  /** Appends a mutation's record, or refuses one too long and leaves the buffer alone. */
  method EncodeRecord(crc: Crc, m: Mutation, out: Buffer) returns (ok: bool)
    modifies out
    ensures ok <==> |m.key| < 0x1_0000_0000 && 6 + |m.key| + |m.Payload()| <= 64 * 1024 * 1024
    ensures ok <==> Encodable(m)
    ensures out.data == old(out.data) + if ok then RecordOf(crc, m) else []
  {
    var kind, value := if m.Put? then PUT else DELETE, m.Payload();
    if |m.key| >= U32_END {
      return false;
    }
    var payload := new Buffer();
    payload.Extend([VERSION]);
    payload.Extend([kind]);
    payload.Extend(Word(|m.key|));
    payload.Extend(m.key);
    payload.Extend(value);
    assert payload.data == PayloadOf(m);
    ok := Encode(crc, payload.data, out);
  }

  // ---- Whole logs ---------------------------------------------------------------

  predicate AllEncodable(ms: seq<Mutation>) {
    forall i :: 0 <= i < |ms| ==> Encodable(ms[i])
  }

  function Records(crc: Crc, ms: seq<Mutation>): seq<bytes>
    requires AllEncodable(ms)
  {
    seq(|ms|, i requires 0 <= i < |ms| => RecordOf(crc, ms[i]))
  }

  /** The log of some mutations: their records, end to end. */
  function EncodeAll(crc: Crc, ms: seq<Mutation>): bytes
    requires AllEncodable(ms)
  {
    Join(Records(crc, ms))
  }

  lemma EncodeConcat(crc: Crc, a: seq<Mutation>, b: seq<Mutation>)
    requires AllEncodable(a) && AllEncodable(b)
    ensures AllEncodable(a + b) && EncodeAll(crc, a + b) == EncodeAll(crc, a) + EncodeAll(crc, b)
  {
    JoinConcat(Records(crc, a), Records(crc, b));
    assert Records(crc, a + b) == Records(crc, a) + Records(crc, b);
  }

  /** How a scan of a segment's bytes ends. */
  datatype End = Clean | Torn | Damaged

  /** The records found, the bytes they take, and what follows them. */
  datatype Parsed = Parsed(records: seq<Mutation>, valid: nat, end: End)

  /** Reads records until the bytes run out or stop decoding. */
  function Parse(crc: Crc, b: bytes): (p: Parsed)
    ensures p.valid <= |b|
    decreases |b|
  {
    if b == [] then Parsed([], 0, Clean)
    else
      match DecodeRecord(crc, b)
      case Err(Truncated) => Parsed([], 0, Torn)
      case Err(Corrupt) => Parsed([], 0, Damaged)
      case Ok((m, width)) =>
        var rest := Parse(crc, b[width..]);
        Parsed([m] + rest.records, width + rest.valid, rest.end)
  }

  /** How many of `ms`'s records lie wholly within the first `n` bytes of their encoding. */
  function Whole(crc: Crc, ms: seq<Mutation>, n: nat): (k: nat)
    requires AllEncodable(ms)
    ensures k <= |ms|
  {
    Within(Records(crc, ms), n)
  }

  /**
   Any byte cut of an encoded log reads back as the records wholly before the cut,
   and whatever is left of the next one reads as torn, never as damage.
   */
  lemma {:induction false} CutLogParses(crc: Crc, ms: seq<Mutation>, cut: bytes)
    requires AllEncodable(ms) && cut <= EncodeAll(crc, ms)
    ensures var k := Whole(crc, ms, |cut|);
            var valid := |EncodeAll(crc, ms[..k])|;
            Parse(crc, cut) == Parsed(ms[..k], valid, if valid == |cut| then Clean else Torn)
  {
    if ms != [] && cut != [] {
      var record := RecordOf(crc, ms[0]);
      FirstRecord(crc, ms);
      if |cut| < |record| {
        TornRecord(crc, ms[0], |cut|);
        assert cut == record[..|cut|];
      } else {
        var more := cut[|record|..];
        assert cut == record + more;
        CutLogParses(crc, ms[1..], more);
        ParseOne(crc, ms[0], more);
        OneMoreWhole(crc, ms, Whole(crc, ms[1..], |more|));
      }
    }
  }

  lemma FirstRecord(crc: Crc, ms: seq<Mutation>)
    requires AllEncodable(ms) && ms != []
    ensures EncodeAll(crc, ms) == RecordOf(crc, ms[0]) + EncodeAll(crc, ms[1..])
    ensures forall n: nat :: Whole(crc, ms, n) ==
              if n < |RecordOf(crc, ms[0])| then 0 else 1 + Whole(crc, ms[1..], n - |RecordOf(crc, ms[0])|)
  {
    assert Records(crc, ms)[1..] == Records(crc, ms[1..]);
  }

  lemma OneMoreWhole(crc: Crc, ms: seq<Mutation>, k: nat)
    requires AllEncodable(ms) && ms != [] && k < |ms|
    ensures ms[..k + 1] == [ms[0]] + ms[1..][..k]
    ensures EncodeAll(crc, ms[..k + 1]) == RecordOf(crc, ms[0]) + EncodeAll(crc, ms[1..][..k])
  {
    assert Records(crc, ms[..k + 1])[1..] == Records(crc, ms[1..][..k]);
  }

  lemma ParseOne(crc: Crc, m: Mutation, more: bytes)
    requires Encodable(m)
    ensures var rest := Parse(crc, more);
            Parse(crc, RecordOf(crc, m) + more) == Parsed([m] + rest.records, |RecordOf(crc, m)| + rest.valid, rest.end)
  {
    var b := RecordOf(crc, m) + more;
    RecordRoundTrip(crc, m, more);
    assert b[|RecordOf(crc, m)|..] == more;
  }

  /** Where a byte prefix of `b`'s encoding cuts the encoding of `a` then `b`. */
  lemma CutFacts(crc: Crc, a: seq<Mutation>, b: seq<Mutation>, tail: bytes)
    requires AllEncodable(a) && AllEncodable(b) && tail <= EncodeAll(crc, b)
    ensures var k, n := Whole(crc, b, |tail|), |EncodeAll(crc, a)| + |tail|;
            && AllEncodable(a + b) && AllEncodable(a + b[..k])
            && EncodeAll(crc, a) + tail <= EncodeAll(crc, a + b)
            && Whole(crc, a + b, n) == |a| + k && (a + b)[..|a| + k] == a + b[..k]
            && EncodeAll(crc, b[..k]) <= tail
            && EncodeAll(crc, a + b[..k]) == EncodeAll(crc, a) + EncodeAll(crc, b[..k])
            && (|EncodeAll(crc, a + b[..k])| == n <==> EncodeAll(crc, b[..k]) == tail)
  {
    RecordsInParts(crc, a, b, Whole(crc, b, |tail|));
    CutOfSecond(Records(crc, a), Records(crc, b), tail);
  }

  lemma RecordsInParts(crc: Crc, a: seq<Mutation>, b: seq<Mutation>, k: nat)
    requires AllEncodable(a) && AllEncodable(b) && k <= |b|
    ensures AllEncodable(a + b) && Records(crc, a + b) == Records(crc, a) + Records(crc, b)
    ensures AllEncodable(b[..k]) && Records(crc, b[..k]) == Records(crc, b)[..k]
    ensures AllEncodable(a + b[..k]) && Records(crc, a + b[..k]) == Records(crc, a) + Records(crc, b)[..k]
    ensures (a + b)[..|a| + k] == a + b[..k]
  {
  }

  /**
   A log followed by a byte prefix of more reads back as the log and the whole records
   of the prefix.
   */
  lemma LogThenCutParses(crc: Crc, a: seq<Mutation>, b: seq<Mutation>, tail: bytes)
    requires AllEncodable(a) && AllEncodable(b) && tail <= EncodeAll(crc, b)
    ensures var k := Whole(crc, b, |tail|);
            && AllEncodable(a + b[..k])
            && EncodeAll(crc, b[..k]) <= tail
            && EncodeAll(crc, a + b[..k]) == EncodeAll(crc, a) + EncodeAll(crc, b[..k])
            && Parse(crc, EncodeAll(crc, a) + tail) ==
               Parsed(a + b[..k], |EncodeAll(crc, a + b[..k])|, if EncodeAll(crc, b[..k]) == tail then Clean else Torn)
  {
    hide Parse, EncodeAll, Whole;
    CutFacts(crc, a, b, tail);
    CutLogParses(crc, a + b, EncodeAll(crc, a) + tail);
  }

  /** An encoded log reads back as its records. */
  lemma WholeLogParses(crc: Crc, ms: seq<Mutation>)
    requires AllEncodable(ms)
    ensures Parse(crc, EncodeAll(crc, ms)) == Parsed(ms, |EncodeAll(crc, ms)|, Clean)
  {
    LogThenCutParses(crc, ms, [], []);
    assert EncodeAll(crc, ms) + [] == EncodeAll(crc, ms) && ms + [][..0] == ms;
  }
}
