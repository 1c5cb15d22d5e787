/** acceptor/tcp_conn.go tcpConn.GetNextMessage: read one frame from a
    blocking stream — at most HeadLength bytes of head, then at most the
    declared number of payload bytes. */
module AcceptorTcpConn {
  import opened Wrappers
  import opened Wire
  import opened FrameCheck
  import opened Stream

  function GetNextMessage(parse: HeaderParser, s: Stream): (r: FrameRead)
    ensures r.rest.end == s.end
    ensures |r.rest.data| <= |s.data| && r.rest.data == s.data[|s.data| - |r.rest.data|..]
    ensures var used := |s.data| - |r.rest.data|;
      used > HeadLength ==>
        parse(s.data[..HeadLength]).Ok? && used <= HeadLength + parse(s.data[..HeadLength]).value.size
    ensures !r.status.Fine? ==> r.frame == []
    ensures r.status.Fine? ==> s.data == r.frame + r.rest.data
    ensures r.status.Fine? && RejectsShort(parse) ==> IsFrame(parse, r.frame)
    ensures r.status.Failed? && |s.data| >= HeadLength && parse(s.data[..HeadLength]).Err? ==>
      r.status.err == parse(s.data[..HeadLength]).error
    ensures r.status.Raised? ==> s.end.AtPanic?
    // Every way the call can end: by whether a head was read, whether it
    // parses, and whether the declared payload arrived.
    ensures !HeadRead(s) && s.end.AtError? ==> r.status == Failed(s.end.e)
    ensures !HeadRead(s) && s.end.AtPanic? ==> r.status == Raised(s.end.p)
    ensures HeadRead(s) && parse(Head(s)).Err? ==> r.status == Failed(parse(Head(s)).error)
    ensures HeadRead(s) && parse(Head(s)).Ok? ==>
      var size := parse(Head(s)).value.size;
      var avail := |s.data| - |Head(s)|;
      && (avail >= size ==> r.status == Fine && r.frame == s.data[..|Head(s)| + size])
      && (avail < size && s.end == AtEOF ==> r.status == Failed(ReceivedMsgSmallerThanExpected))
      && (avail < size && s.end.AtError? ==> r.status == Failed(s.end.e))
      && (avail < size && s.end.AtPanic? ==> r.status == Raised(s.end.p))
  {
    var head := ReadLimited(s, HeadLength);
    match head.status
    case Failed(e) => FrameRead([], head.rest, Failed(e))
    case Raised(p) => FrameRead([], head.rest, Raised(p))
    case Fine =>
      var header := head.chunk;
      match parse(header)
      case Err(e) => FrameRead([], head.rest, Failed(e))
      case Ok(h) =>
        var body := ReadLimited(head.rest, h.size);
        assert s.data == header + body.chunk + body.rest.data;
        assert |header| == HeadLength ==> (header + body.chunk)[..HeadLength] == header;
        assert header == Head(s);
        match body.status
        case Failed(e) => FrameRead([], body.rest, Failed(e))
        case Raised(p) => FrameRead([], body.rest, Raised(p))
        case Fine =>
          if |body.chunk| < h.size then FrameRead([], body.rest, Failed(ReceivedMsgSmallerThanExpected))
          else
            FrameRead(header + body.chunk, body.rest, Fine)
  }

  /** Reading k frames one call after another; stops at the first failure. */
  function GetMessages(parse: HeaderParser, s: Stream, k: nat): (r: (seq<Bytes>, Stream, Status))
    decreases k
  {
    if k == 0 then ([], s, Fine)
    else
      var n := GetNextMessage(parse, s);
      if !n.status.Fine? then ([], n.rest, n.status)
      else
        var t := GetMessages(parse, n.rest, k - 1);
        ([n.frame] + t.0, t.1, t.2)
  }

  /** A well-formed frame at the front of the stream is returned whole and
      exactly its bytes are consumed; this includes the 4-byte frame with an
      empty payload, for which the payload read asks for nothing. */
  lemma ReadsLeadingFrame(parse: HeaderParser, f: Bytes, s: Stream)
    requires IsFrame(parse, f)
    requires |s.data| >= |f| && s.data[..|f|] == f
    ensures GetNextMessage(parse, s) == FrameRead(f, Stream(s.data[|f|..], s.end), Fine)
  {
    var h := parse(f[..HeadLength]).value;
    assert s.data[..HeadLength] == f[..HeadLength];
    var body := ReadLimited(Stream(s.data[HeadLength..], s.end), h.size);
    assert body.chunk == f[HeadLength..];
    assert f[..HeadLength] + f[HeadLength..] == f;
    assert s.data[HeadLength..][h.size..] == s.data[|f|..];
  }

  /** Every element of fs is a well-formed frame. */
  predicate AllFrames(parse: HeaderParser, fs: seq<Bytes>) {
    forall i :: 0 <= i < |fs| ==> IsFrame(parse, fs[i])
  }

  lemma AllFramesTail(parse: HeaderParser, fs: seq<Bytes>)
    requires fs != [] && AllFrames(parse, fs)
    ensures AllFrames(parse, fs[1..])
  {
    forall i | 0 <= i < |fs| - 1
      ensures IsFrame(parse, fs[1..][i])
    {
      assert fs[1..][i] == fs[i + 1];
    }
  }

  /** One step of reading frames in order: if the frames after the first are
      read in order from the stream that holds them, then so are all of them
      from the stream that also holds the first. */
  lemma FirstOfFrames(parse: HeaderParser, fs: seq<Bytes>, rest: Bytes, end: End)
    requires fs != [] && IsFrame(parse, fs[0])
    requires GetMessages(parse, Stream(Concat(fs[1..]) + rest, end), |fs| - 1)
      == (fs[1..], Stream(rest, end), Fine)
    ensures GetMessages(parse, Stream(Concat(fs) + rest, end), |fs|) == (fs, Stream(rest, end), Fine)
  {
    var s1 := Stream(Concat(fs[1..]) + rest, end);
    FrameAtFront(parse, fs, rest, end);
    NextFrameThenRest(parse, Stream(Concat(fs) + rest, end), fs[0], s1, |fs|);
    assert [fs[0]] + fs[1..] == fs;
  }

  lemma FrameAtFront(parse: HeaderParser, fs: seq<Bytes>, rest: Bytes, end: End)
    requires fs != [] && IsFrame(parse, fs[0])
    ensures GetNextMessage(parse, Stream(Concat(fs) + rest, end))
      == FrameRead(fs[0], Stream(Concat(fs[1..]) + rest, end), Fine)
  {
    var f := fs[0];
    var s := Stream(Concat(fs) + rest, end);
    var after := Concat(fs[1..]) + rest;
    assert s.data == f + after;
    assert s.data[..|f|] == f && s.data[|f|..] == after;
    ReadsLeadingFrame(parse, f, s);
  }

  /** Repeated calls over a stream of well-formed frames followed by any
      bytes return the frames in order and leave exactly those bytes;
      empty-payload frames included. */
  lemma {:induction false} ReadsFramesInOrder(parse: HeaderParser, fs: seq<Bytes>, rest: Bytes, end: End)
    requires AllFrames(parse, fs)
    ensures GetMessages(parse, Stream(Concat(fs) + rest, end), |fs|) == (fs, Stream(rest, end), Fine)
    decreases |fs|
  {
    if fs == [] {
      assert Concat(fs) + rest == rest;
    } else {
      AllFramesTail(parse, fs);
      ReadsFramesInOrder(parse, fs[1..], rest, end);
      FirstOfFrames(parse, fs, rest, end);
    }
  }

  lemma NextFrameThenRest(parse: HeaderParser, s: Stream, f: Bytes, s1: Stream, k: nat)
    requires k > 0 && GetNextMessage(parse, s) == FrameRead(f, s1, Fine)
    ensures var t := GetMessages(parse, s1, k - 1);
      GetMessages(parse, s, k) == ([f] + t.0, t.1, t.2)
  {
  }
}
