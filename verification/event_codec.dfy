/** epoll/event_codec.go: the gnet frame codec. It cuts one frame
    `type byte ++ 3-byte length ++ payload` off the front of the connection's
    inbound bytes and reports how many bytes to shift. */
module EventCodec {
  import opened Wrappers
  import opened Wire

  /** innerBuffer.readN: split off the first n bytes. */
  function ReadN(input: Bytes, n: int): (r: Result<(Bytes, Bytes), Error>)
    ensures n == 0 ==> r == Ok(([], input))
    ensures 0 < n <= |input| ==> r.Ok? && r.value.0 == input[..n] && r.value.1 == input[n..]
    ensures n < 0 ==> r == Err(NegativeLength)
    ensures n > |input| ==> r == Err(ExceedingBufferLength)
  {
    if n == 0 then Ok(([], input))
    else if n < 0 then Err(NegativeLength)
    else if n > |input| then Err(ExceedingBufferLength)
    else Ok((input[..n], input[n..]))
  }

  datatype ByteOrder = BigEndian | LittleEndian

  /** readUint24: the first three bytes as an unsigned 24-bit number. */
  function ReadUint24(order: ByteOrder, b: Bytes): (v: nat)
    requires |b| >= 3
    ensures v < 0x100_0000
    ensures order == BigEndian ==> v == (b[0] as int) * 65536 + (b[1] as int) * 256 + b[2]
    ensures order == LittleEndian ==> v == (b[2] as int) * 65536 + (b[1] as int) * 256 + b[0]
  {
    var b0, b1, b2 := b[0] as int, b[1] as int, b[2] as int;
    if order == LittleEndian then b0 + b1 * 256 + b2 * 65536
    else b2 + b1 * 256 + b0 * 65536
  }

  /** The 3-byte big-endian encoding of a length below 2^24. */
  function BE24(n: nat): (b: Bytes)
    requires n < 0x100_0000
    ensures |b| == 3
  {
    [n / 65536, (n / 256) % 256, n % 256]
  }

  lemma ReadUint24InvertsBE24(n: nat)
    requires n < 0x100_0000
    ensures ReadUint24(BigEndian, BE24(n)) == n
  {
  }

  /** Both byte orders read the same bytes in reverse of each other. */
  lemma ByteOrdersAreReversed(b: Bytes)
    requires |b| >= 3
    ensures ReadUint24(LittleEndian, b) == ReadUint24(BigEndian, [b[2], b[1], b[0]])
  {
  }

  /** getUnadjustedFrameLength: the three length bytes and their value. */
  function GetUnadjustedFrameLength(input: Bytes): (r: Result<(Bytes, nat, Bytes), Error>)
    ensures |input| < 3 <==> r == Err(UnexpectedEOF)
    ensures r.Ok? ==>
      && r.value.0 == input[..3] && r.value.2 == input[3..]
      && r.value.1 == ReadUint24(BigEndian, input[..3])
  {
    match ReadN(input, 3)
    case Err(_) => Err(UnexpectedEOF)
    case Ok((lenBuf, rest)) => Ok((lenBuf, ReadUint24(BigEndian, lenBuf), rest))
  }

  /** Decode's answer: the full frame and the count passed to ShiftN. */
  datatype Decoded = Decoded(frame: Bytes, shift: nat)

  /** The byte count a complete frame at the front of `input` occupies. */
  function DeclaredTotal(input: Bytes): nat
    requires |input| >= HeadLength
  {
    HeadLength + ReadUint24(BigEndian, input[1..4])
  }

  /** EventCodec.Decode: a missing type byte, length field or payload byte
      gives ErrUnexpectedEOF and no ShiftN. */
  function Decode(input: Bytes): (r: Result<Decoded, Error>)
    ensures r.Err? <==> |input| < HeadLength || |input| < DeclaredTotal(input)
    ensures r.Err? ==> r.error == UnexpectedEOF
    ensures r.Ok? ==>
      && r.value.shift == |r.value.frame| == DeclaredTotal(input)
      && r.value.frame == input[..r.value.shift]
  {
    match ReadN(input, 1)
    case Err(_) => Err(UnexpectedEOF)
    case Ok((header, rest)) =>
      match GetUnadjustedFrameLength(rest)
      case Err(e) => Err(e)
      case Ok((lenBuf, frameLength, rest')) =>
        match ReadN(rest', frameLength)
        case Err(_) => Err(UnexpectedEOF)
        case Ok((msg, _)) =>
          assert input[1..4] == lenBuf;
          var full := header + lenBuf + msg;
          assert full == input[..|full|];
          Ok(Decoded(full, |full|))
  }

  /** EventCodec.Encode returns its input unchanged. */
  function Encode(buf: Bytes): (r: Bytes)
    ensures |r| == |buf|
    ensures forall i :: 0 <= i < |buf| ==> r[i] == buf[i]
  {
    buf
  }

  /** The frame the paired client writes for type code t and payload p. */
  function Frame(t: byte, p: Bytes): Bytes
    requires |p| < 0x100_0000
  {
    [t] + BE24(|p|) + p
  }

  /** Decoding a frame followed by anything returns exactly that frame and
      shifts exactly its length. */
  lemma DecodeFrameRoundTrip(t: byte, p: Bytes, rest: Bytes)
    requires |p| < 0x100_0000
    ensures Decode(Frame(t, p) + rest) == Ok(Decoded(Frame(t, p), HeadLength + |p|))
  {
    var input := Frame(t, p) + rest;
    assert input[1..4] == BE24(|p|);
    ReadUint24InvertsBE24(|p|);
    assert input[..HeadLength + |p|] == Frame(t, p);
  }

  /** Withholding the last byte of a frame leaves it undecodable. */
  lemma DecodeTruncatedFrameFails(t: byte, p: Bytes)
    requires |p| < 0x100_0000
    ensures Decode(Frame(t, p)[..HeadLength + |p| - 1]) == Err(UnexpectedEOF)
  {
    var input := Frame(t, p)[..HeadLength + |p| - 1];
    if |p| > 0 {
      assert input[1..4] == BE24(|p|);
      ReadUint24InvertsBE24(|p|);
    }
  }
}
