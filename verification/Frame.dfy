/** Length-and-checksum frames: how one log record is delimited in a segment. */
module Frames {
  import opened Wrappers
  import opened ByteStrings

  const HEADER_LEN: nat := 8
  const MAX_PAYLOAD_LEN: nat := 64 * 1024 * 1024

  type word = n: nat | n < U32_END

  /** The checksum of a byte string; any deterministic function will do. */
  type Crc = bytes -> word

  datatype FrameError = Truncated | Corrupt

  function Word(n: nat): (b: bytes)
    requires n < U32_END
    ensures |b| == 4
  {
    Capacities();
    BigEndian(n, 4)
  }

  function Checksum(crc: Crc, len: bytes, payload: bytes): bytes {
    Word(crc(len + payload))
  }

  function FrameOf(crc: Crc, payload: bytes): (b: bytes)
    requires |payload| <= MAX_PAYLOAD_LEN
    ensures |b| == HEADER_LEN + |payload|
  {
    Checksum(crc, Word(|payload|), payload) + Word(|payload|) + payload
  }

  /** The payload of the frame at the start of `b`, and the frame's width. */
  function Decode(crc: Crc, b: bytes): Result<(bytes, nat), FrameError> {
    if |b| < HEADER_LEN then Err(Truncated)
    else
      var expected, len, rest := b[..4], b[4..8], b[8..];
      var payloadLen := FromBigEndian(len);
      if payloadLen > MAX_PAYLOAD_LEN then Err(Corrupt)
      else if payloadLen > |rest| then Err(Truncated)
      else if Checksum(crc, len, rest[..payloadLen]) != expected then Err(Corrupt)
      else Ok((rest[..payloadLen], HEADER_LEN + payloadLen))
  }

  lemma WordRoundTrip(n: nat)
    requires n < U32_END
    ensures FromBigEndian(Word(n)) == n
  {
    Capacities();
    BigEndianRoundTrip(n, 4);
  }

  /** The fields of a frame, whatever follows it. */
  lemma FrameFields(crc: Crc, payload: bytes, more: bytes)
    requires |payload| <= MAX_PAYLOAD_LEN
    ensures var b := FrameOf(crc, payload) + more;
            && b[..4] == Checksum(crc, Word(|payload|), payload)
            && b[4..8] == Word(|payload|)
            && b[8..] == payload + more
  {
  }

  /** A frame decodes to its payload and width, whatever follows it. */
  lemma FrameRoundTrip(crc: Crc, payload: bytes, more: bytes)
    requires |payload| <= MAX_PAYLOAD_LEN
    ensures Decode(crc, FrameOf(crc, payload) + more) == Ok((payload, HEADER_LEN + |payload|))
  {
    FrameFields(crc, payload, more);
    WordRoundTrip(|payload|);
    assert (payload + more)[..|payload|] == payload;
  }

  /** Every proper prefix of a frame reads as truncated, never as corrupt. */
  lemma TornFrame(crc: Crc, payload: bytes, n: nat)
    requires |payload| <= MAX_PAYLOAD_LEN && n < HEADER_LEN + |payload|
    ensures Decode(crc, FrameOf(crc, payload)[..n]) == Err(Truncated)
  {
    var whole := FrameOf(crc, payload);
    if n >= HEADER_LEN {
      FrameFields(crc, payload, []);
      assert whole + [] == whole;
      assert whole[..n][4..8] == whole[4..8];
      WordRoundTrip(|payload|);
    }
  }

  /** Nothing decodes but a frame this encoding writes. */
  lemma DecodedIsFrame(crc: Crc, b: bytes)
    ensures var r := Decode(crc, b);
            r.Ok? ==>
              && |r.value.0| <= MAX_PAYLOAD_LEN && r.value.1 == HEADER_LEN + |r.value.0| <= |b|
              && b[..r.value.1] == FrameOf(crc, r.value.0)
  {
    var r := Decode(crc, b);
    if r.Ok? {
      var (payload, width) := r.value;
      Capacities();
      BigEndianOnto(b[4..8]);
      assert Word(|payload|) == b[4..8];
      assert b[..width] == b[..4] + b[4..8] + b[8..][..|payload|];
    }
  }

  /** A growing byte buffer that encoders append to. */
  class Buffer {
    var data: bytes

    constructor ()
      ensures data == []
    {
      data := [];
    }

    method Extend(more: bytes)
      modifies this
      ensures data == old(data) + more
    {
      data := data + more;
    }
  }

  /** Appends a framed payload, or refuses one too long and leaves the buffer alone. */
  method Encode(crc: Crc, payload: bytes, out: Buffer) returns (ok: bool)
    modifies out
    ensures ok <==> |payload| <= 64 * 1024 * 1024
    ensures out.data == old(out.data) + if ok then FrameOf(crc, payload) else []
  {
    if |payload| >= U32_END {
      return false;
    }
    if |payload| > MAX_PAYLOAD_LEN {
      return false;
    }
    var len := Word(|payload|);
    out.Extend(Checksum(crc, len, payload));
    out.Extend(len);
    out.Extend(payload);
    return true;
  }
}
