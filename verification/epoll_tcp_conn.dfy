/** epoll/tcp_conn.go TcpConn.GetNextMessage: the same "read one frame" as the
    acceptor's, but collected in a bytes.Buffer through ReadFrom, with a
    deferred recover that turns a bytes.ErrTooLarge panic into the returned
    error and re-raises any other panic. */
module EpollTcpConn {
  import opened Wrappers
  import opened Wire
  import opened Buffer
  import opened FrameCheck
  import opened Stream
  import AcceptorTcpConn

  /** The deferred recover: ErrTooLarge becomes an error, anything else
      keeps unwinding. */
  function Recover(p: Panic): (st: Status)
    ensures st.Failed? <==> p == PanicTooLarge
    ensures st.Failed? ==> st.err == TooLarge
    ensures st.Raised? ==> st.p == p
    ensures !st.Fine?
  {
    if p == PanicTooLarge then Failed(TooLarge) else Raised(p)
  }

  /** The second half of GetNextMessage: with the parsed head `h` already in
      `buff`, read the payload into the same buffer and check the total. */
  function ReadBody(parse: HeaderParser, s: Stream, buff: Buffer, h: Header): (r: FrameRead)
    requires Valid(buff) && Cap(buff) <= HeadLength + SmallBufferSize
    requires HeadRead(s) && Unread(buff) == Head(s) && parse(Head(s)) == Ok(h)
    ensures r.rest.end == s.end
    ensures |r.rest.data| <= |s.data| && r.rest.data == s.data[|s.data| - |r.rest.data|..]
    ensures !r.status.Fine? ==> r.frame == []
    ensures r.status.Fine? ==> s.data == r.frame + r.rest.data && |Head(s)| == HeadLength
    ensures r.status.Fine? ==> |r.frame| == HeadLength + h.size
    ensures r.status.Raised? ==> s.end.AtPanic? && r.status.p != PanicTooLarge
    ensures |s.data| <= MaxInt / 2 ==>
      var avail := |s.data| - |Head(s)|;
      && (avail >= h.size && |Head(s)| == HeadLength ==> r.status == Fine)
      && (|Head(s)| < HeadLength ==> r.status == Failed(ReceivedMsgSmallerThanExpected))
      && (avail < h.size && s.end == AtEOF ==> r.status == Failed(ReceivedMsgSmallerThanExpected))
      && (avail < h.size && s.end.AtError? ==> r.status == Failed(s.end.e))
      && (avail < h.size && s.end.AtPanic? ==> r.status == Recover(s.end.p))
  {
    var header := Head(s);
    var afterHead := Stream(s.data[|header|..], s.end);
    assert s.data == header + afterHead.data;
    var body := ReadLimited(afterHead, h.size);
    assert |body.chunk| <= |s.data| && s.data == header + body.chunk + body.rest.data;
    WriteBody(buff, body, h)
  }

  /** Appending the payload read to the head in `buff`, then the check of the
      total: bytes short of the head plus the declared payload are an error. */
  function WriteBody(buff: Buffer, body: Limited, h: Header): (r: FrameRead)
    requires Valid(buff)
    ensures r.rest == body.rest
    ensures !r.status.Fine? ==> r.frame == []
    ensures r.status.Fine? ==>
      body.status.Fine? && r.frame == Unread(buff) + body.chunk && |r.frame| >= HeadLength + h.size
    ensures r.status.Raised? ==> body.status.Raised? && r.status.p != PanicTooLarge
    ensures 2 * Cap(buff) + |body.chunk| <= MaxInt ==>
      && (body.status.Failed? ==> r.status == body.status)
      && (body.status.Raised? ==> r.status == Recover(body.status.p))
      && (body.status.Fine? && |Unread(buff)| + |body.chunk| >= HeadLength + h.size ==> r.status == Fine)
      && (body.status.Fine? && |Unread(buff)| + |body.chunk| < HeadLength + h.size ==>
            r.status == Failed(ReceivedMsgSmallerThanExpected))
  {
    match Write(buff, body.chunk)
    case Err(p) => FrameRead([], body.rest, Recover(p))
    case Ok((full, _)) =>
      match body.status
      case Failed(e) => FrameRead([], body.rest, Failed(e))
      case Raised(p) => FrameRead([], body.rest, Recover(p))
      case Fine =>
        var total := Unread(full);
        if |total| < HeadLength + h.size then FrameRead([], body.rest, Failed(ReceivedMsgSmallerThanExpected))
        else FrameRead(total, body.rest, Fine)
  }

  function GetNextMessage(parse: HeaderParser, s: Stream): (r: FrameRead)
    ensures r.rest.end == s.end
    ensures |r.rest.data| <= |s.data| && r.rest.data == s.data[|s.data| - |r.rest.data|..]
    ensures !r.status.Fine? ==> r.frame == []
    ensures r.status.Fine? ==> s.data == r.frame + r.rest.data
    ensures r.status.Fine? && RejectsShort(parse) ==> IsFrame(parse, r.frame)
    ensures r.status.Raised? ==> s.end.AtPanic? && r.status.p != PanicTooLarge
    // The buffer can only grow past its limit on a stream of more than
    // MaxInt / 2 bytes; below that, every way the call can end.
    ensures |s.data| <= MaxInt / 2 && !HeadRead(s) && s.end.AtError? ==> r.status == Failed(s.end.e)
    ensures |s.data| <= MaxInt / 2 && !HeadRead(s) && s.end.AtPanic? ==> r.status == Recover(s.end.p)
    ensures |s.data| <= MaxInt / 2 && HeadRead(s) && parse(Head(s)).Err? ==>
      r.status == Failed(parse(Head(s)).error)
    ensures |s.data| <= MaxInt / 2 && HeadRead(s) && parse(Head(s)).Ok? ==>
      var size := parse(Head(s)).value.size;
      var avail := |s.data| - |Head(s)|;
      && (avail >= size && |Head(s)| == HeadLength ==> r.status == Fine && r.frame == s.data[..HeadLength + size])
      // A short head that ParseHeader accepted fails the total-length
      // check even when its payload is complete.
      && (|Head(s)| < HeadLength ==> r.status == Failed(ReceivedMsgSmallerThanExpected))
      && (avail < size && s.end == AtEOF ==> r.status == Failed(ReceivedMsgSmallerThanExpected))
      && (avail < size && s.end.AtError? ==> r.status == Failed(s.end.e))
      && (avail < size && s.end.AtPanic? ==> r.status == Recover(s.end.p))
  {
    var head := ReadLimited(s, HeadLength);
    match Write(Zero, head.chunk)
    case Err(p) => FrameRead([], head.rest, Recover(p))
    case Ok((buff, _)) =>
      match head.status
      case Failed(e) => FrameRead([], head.rest, Failed(e))
      case Raised(p) => FrameRead([], head.rest, Recover(p))
      case Fine =>
        assert Unread(buff) == Head(s);
        ParseHead(parse, s, buff)
  }

  /** With the head read into `buff`: a head ParseHeader rejects ends the
      call with its error; otherwise the payload is read after it. */
  function ParseHead(parse: HeaderParser, s: Stream, buff: Buffer): (r: FrameRead)
    requires Valid(buff) && Cap(buff) <= HeadLength + SmallBufferSize
    requires HeadRead(s) && Unread(buff) == Head(s)
    ensures r.rest.end == s.end
    ensures |r.rest.data| <= |s.data| && r.rest.data == s.data[|s.data| - |r.rest.data|..]
    ensures !r.status.Fine? ==> r.frame == []
    ensures r.status.Fine? ==> s.data == r.frame + r.rest.data
    ensures r.status.Fine? ==>
      && parse(Head(s)).Ok? && |Head(s)| == HeadLength
      && |r.frame| == HeadLength + parse(Head(s)).value.size && r.frame[..HeadLength] == Head(s)
    ensures r.status.Raised? ==> s.end.AtPanic? && r.status.p != PanicTooLarge
    ensures parse(Head(s)).Err? ==> r.status == Failed(parse(Head(s)).error)
    ensures |s.data| <= MaxInt / 2 && parse(Head(s)).Ok? ==>
      var size := parse(Head(s)).value.size;
      var avail := |s.data| - |Head(s)|;
      && (avail >= size && |Head(s)| == HeadLength ==> r.status == Fine)
      && (|Head(s)| < HeadLength ==> r.status == Failed(ReceivedMsgSmallerThanExpected))
      && (avail < size && s.end == AtEOF ==> r.status == Failed(ReceivedMsgSmallerThanExpected))
      && (avail < size && s.end.AtError? ==> r.status == Failed(s.end.e))
      && (avail < size && s.end.AtPanic? ==> r.status == Recover(s.end.p))
  {
    var header := Head(s);
    match parse(header)
    case Err(e) =>
      FrameRead([], Stream(s.data[|header|..], s.end), Failed(e))
    case Ok(h) =>
      var r := ReadBody(parse, s, buff, h);
      assert r.status.Fine? ==> r.frame[..HeadLength] == header;
      r
  }

  /** The acceptor's result as seen through this variant's recover. */
  function Recovered(r: FrameRead): FrameRead {
    if r.status.Raised? then r.(status := Recover(r.status.p)) else r
  }

  /** For any stream shorter than half the address space and any ParseHeader
      that rejects short heads, this reader returns what the acceptor's reader
      returns, except that an ErrTooLarge panic comes back as an error. */
  lemma AgreesWithAcceptor(parse: HeaderParser, s: Stream)
    requires RejectsShort(parse)
    requires |s.data| <= MaxInt / 4
    ensures GetNextMessage(parse, s) == Recovered(AcceptorTcpConn.GetNextMessage(parse, s))
  {
    var head := ReadLimited(s, HeadLength);
    var first := Write(Zero, head.chunk);
    assert first.Ok?;
    if head.status.Fine? {
      var buff := first.value.0;
      var header := Unread(buff);
      assert header == head.chunk;
      if parse(header).Ok? {
        assert |header| == HeadLength;
        var body := ReadLimited(head.rest, parse(header).value.size);
        assert Write(buff, body.chunk).Ok?;
      }
    }
  }
}
