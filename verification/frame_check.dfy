/** epoll/tools.go checkReceivedMsgBytes: a received byte run must be exactly
    one frame — a head that codec.ParseHeader accepts and as many payload bytes
    as the head declares. */
module FrameCheck {
  import opened Wrappers
  import opened Wire

  /** None stands for Go's nil error. */
  function CheckReceivedMsgBytes(parse: HeaderParser, msg: Bytes): (r: Option<Error>)
    ensures |msg| < HeadLength ==> r == Some(InvalidPomeloHeader)
    ensures |msg| >= HeadLength && parse(msg[..HeadLength]).Err? ==>
      r == Some(parse(msg[..HeadLength]).error)
    ensures |msg| >= HeadLength && parse(msg[..HeadLength]).Ok? ==>
      var size := parse(msg[..HeadLength]).value.size;
      && (|msg| - HeadLength < size ==> r == Some(ReceivedMsgSmallerThanExpected))
      && (|msg| - HeadLength > size ==> r == Some(ReceivedMsgBiggerThanExpected))
  {
    if |msg| < HeadLength then Some(InvalidPomeloHeader)
    else
      match parse(msg[..HeadLength])
      case Err(e) => Some(e)
      case Ok(h) =>
        var dataLen := |msg[HeadLength..]|;
        if dataLen < h.size then Some(ReceivedMsgSmallerThanExpected)
        else if dataLen > h.size then Some(ReceivedMsgBiggerThanExpected)
        else None
  }

  /** A byte run is one well-formed frame for `parse`. */
  predicate IsFrame(parse: HeaderParser, msg: Bytes) {
    && |msg| >= HeadLength
    && parse(msg[..HeadLength]).Ok?
    && |msg| == HeadLength + parse(msg[..HeadLength]).value.size
  }

  /** The check passes exactly on well-formed frames. */
  lemma CheckPassesIffFrame(parse: HeaderParser, msg: Bytes)
    ensures CheckReceivedMsgBytes(parse, msg).None? <==> IsFrame(parse, msg)
  {
  }

  /** Any head followed by exactly the declared number of bytes passes. */
  lemma CheckAcceptsHeadPlusPayload(parse: HeaderParser, head: Bytes, payload: Bytes)
    requires |head| == HeadLength && parse(head).Ok?
    requires |payload| == parse(head).value.size
    ensures CheckReceivedMsgBytes(parse, head + payload).None?
  {
    assert (head + payload)[..HeadLength] == head;
  }
}
