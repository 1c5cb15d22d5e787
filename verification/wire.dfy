/** Shared vocabulary of the network layer: bytes, the 4-byte frame head,
    packet types, the errors the modelled code can report and the message the
    pollers push onto a connection's received channel. */
module Wire {
  import opened Wrappers

  type byte = x: int | 0 <= x < 256
  type Bytes = seq<byte>

  /** codec.HeadLength: 1 type byte followed by a 3-byte big-endian length. */
  const HeadLength: nat := 4

  /** Packet types with the numeric codes fixed by the paired client. */
  datatype PacketType = Handshake | HandshakeAck | Heartbeat | Data | Kick

  function PacketCode(t: PacketType): (c: byte)
    ensures 1 <= c <= 5
  {
    match t
    case Handshake => 1
    case HandshakeAck => 2
    case Heartbeat => 3
    case Data => 4
    case Kick => 5
  }

  /** A Go panic value that the modelled code may raise. */
  datatype Panic =
    | PanicTooLarge          // bytes.ErrTooLarge
    | PanicNegativeCount     // "bytes.Buffer.Grow: negative count"
    | PanicSliceBounds       // runtime slice-bounds violation
    | PanicTypeAssertion     // unchecked type assertion on a nil interface
    | PanicNonPositiveInterval  // time.NewTicker with an interval <= 0
    | PanicUnhashable        // "hash of unhashable type": a []byte map key
    | PanicOther(code: nat)  // anything else a collaborator may panic with

  /** Errors returned (not panicked) by the modelled code. Errors coming from
      collaborators outside the model are kept abstract as `External`. */
  datatype Error =
    | InvalidPomeloHeader                // packet.ErrInvalidPomeloHeader
    | ReceivedMsgSmallerThanExpected     // ifs.ErrReceivedMsgSmallerThanExpected
    | ReceivedMsgBiggerThanExpected      // ifs.ErrReceivedMsgBiggerThanExpected
    | UnexpectedEOF                      // io.ErrUnexpectedEOF / ifs.ErrUnexpectedEOF
    | EOF                                // io.EOF
    | NegativeLength                     // "negative length is invalid"
    | ExceedingBufferLength              // "exceeding buffer length"
    | TooLarge                           // bytes.ErrTooLarge returned after recovery
    | External(code: nat)                // an error produced by a collaborator

  /** Decoded frame head: the declared payload size and the type byte. */
  datatype Header = Header(size: nat, typ: byte)

  /** codec.ParseHeader, which this model does not define: any function from
      bytes to a header or an error. */
  type HeaderParser = Bytes -> Result<Header, Error>

  /** The one property of codec.ParseHeader the model relies on: a head shorter
      than HeadLength is rejected. */
  ghost predicate RejectsShort(parse: HeaderParser) {
    forall h: Bytes :: |h| < HeadLength ==> parse(h).Err?
  }

  /** The epoll `Message` pushed onto a connection's received channel. */
  datatype Message = DataMessage(data: Bytes) | ErrorMessage(err: Error)

  /** The bytes of a sequence of frames laid end to end. */
  function Concat(fs: seq<Bytes>): (r: Bytes)
    decreases |fs|
  {
    if fs == [] then [] else fs[0] + Concat(fs[1..])
  }

  lemma {:induction false} ConcatAppend(fs: seq<Bytes>, f: Bytes)
    ensures Concat(fs + [f]) == Concat(fs) + f
    decreases |fs|
  {
    if fs != [] {
      assert (fs + [f])[1..] == fs[1..] + [f];
      ConcatAppend(fs[1..], f);
    }
  }

  lemma {:induction false} ConcatJoin(a: seq<Bytes>, b: seq<Bytes>)
    ensures Concat(a + b) == Concat(a) + Concat(b)
    decreases |a|
  {
    if a != [] {
      assert (a + b)[1..] == a[1..] + b;
      ConcatJoin(a[1..], b);
    } else {
      assert a + b == b;
    }
  }
}
