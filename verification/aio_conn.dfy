/** epoll/aio_conn.go AioConn.onReceiveData: the TCP stream reassembler.
    Incoming bytes are appended to the connection's inbound buffer, every
    complete frame at the front is copied out and pushed as a data message,
    and what is left is kept for the next read. The loop needs more than a
    head's bytes, so a lone empty-payload frame waits; SplitComplete is the
    corrected cut, which emits it. */
module AioConn {
  import opened Wrappers
  import opened Wire
  import opened Buffer
  import opened BufferPool
  import opened FrameCheck

  /** The outcome of cutting frames off the front of a byte run. */
  datatype Cut = Cut(frames: seq<Bytes>, rest: Bytes, err: Option<Error>)

  /** A remainder the loop stops on without error: too short to decode
      (at most HeadLength bytes), or a parsed head whose payload is missing. */
  predicate Incomplete(parse: HeaderParser, rest: Bytes) {
    || |rest| <= HeadLength
    || (parse(rest[..HeadLength]).Ok? && |rest| < HeadLength + parse(rest[..HeadLength]).value.size)
  }

  /** Content-level reference: the frames the loop emits from `data`, the
      bytes it leaves and the header error it stops on. */
  function Split(parse: HeaderParser, data: Bytes): (c: Cut)
    ensures Concat(c.frames) + c.rest == data
    ensures forall i :: 0 <= i < |c.frames| ==> IsFrame(parse, c.frames[i])
    ensures c.err.Some? ==>
      |c.rest| > HeadLength && parse(c.rest[..HeadLength]) == Err(c.err.value)
    ensures c.err.None? ==> Incomplete(parse, c.rest)
    decreases |data|
  {
    if |data| <= HeadLength then Cut([], data, None)
    else
      match parse(data[..HeadLength])
      case Err(e) => Cut([], data, Some(e))
      case Ok(h) =>
        var total := HeadLength + h.size;
        if |data| < total then Cut([], data, None)
        else
          var frame := data[..total];
          var tail := Split(parse, data[total..]);
          var frames := [frame] + tail.frames;
          assert frame[..HeadLength] == data[..HeadLength];
          assert IsFrame(parse, frame);
          assert frames[1..] == tail.frames;
          assert Concat(frames) + tail.rest == frame + (Concat(tail.frames) + tail.rest);
          assert frame + data[total..] == data;
          Cut(frames, tail.rest, tail.err)
  }

  datatype AioConn = AioConn(inbound: Buffer, pool: Pool, received: seq<Message>)

  /** The connection invariant: a valid inbound buffer and a pool of clean,
      bounded buffers. */
  predicate Good(c: AioConn) {
    Valid(c.inbound) && Clean(c.pool) && Bounded(c.pool)
  }

  function DataMessages(fs: seq<Bytes>): (ms: seq<Message>)
    ensures |ms| == |fs|
    ensures forall i :: 0 <= i < |fs| ==> ms[i] == DataMessage(fs[i])
  {
    seq(|fs|, i requires 0 <= i < |fs| => DataMessage(fs[i]))
  }

  /** The result of one call: the connection afterwards and the error returned. */
  datatype Step = Step(conn: AioConn, err: Option<Error>)

  /** What the decode loop leaves: the buffer, the channel, the error it
      returned with, and whether it returned from inside the loop. */
  datatype Drained = Drained(inbound: Buffer, frames: seq<Bytes>, err: Option<Error>, returned: bool)

  /** The decode loop of onReceiveData (lines 47-68). */
  method Drain(parse: HeaderParser, inbound0: Buffer) returns (d: Drained)
    requires Valid(inbound0)
    ensures
      var cut := Split(parse, Unread(inbound0));
      && Valid(d.inbound)
      && Unread(d.inbound) == cut.rest
      && d.frames == cut.frames
      && d.err == cut.err
      && (!d.returned ==> |cut.rest| <= HeadLength && d.err.None?)
  {
    ghost var goal := Split(parse, Unread(inbound0));
    var inbound := inbound0;
    var emitted: seq<Bytes> := [];
    var data := Unread(inbound);
    ghost var cut := goal;
    while |data| > HeadLength
      invariant Valid(inbound) && data == Unread(inbound)
      invariant cut == Split(parse, data) && goal == Prepend(emitted, cut)
      decreases |data|
    {
      var header := data[..HeadLength];
      var parsed := parse(header);
      if parsed.Err? {
        assert Split(parse, data) == Cut([], data, Some(parsed.error));
        assert emitted + [] == emitted;
        return Drained(inbound, emitted, Some(parsed.error), true);
      }
      var totalSize := HeadLength + parsed.value.size;
      if |data| < totalSize {
        assert Split(parse, data) == Cut([], data, None);
        assert emitted + [] == emitted;
        return Drained(inbound, emitted, None, true);
      }
      var frameData := data[..totalSize];
      SplitUnfold(parse, data, totalSize);
      PrependAssoc(emitted, frameData, Split(parse, data[totalSize..]));
      emitted := emitted + [frameData];
      cut := Split(parse, data[totalSize..]);
      ghost var before := data;
      var next := Next(inbound, totalSize);
      inbound := next.value.0;
      data := Unread(inbound);
      assert data == before[totalSize..];
    }
    assert Split(parse, data) == Cut([], data, None);
    assert emitted + [] == emitted;
    return Drained(inbound, emitted, None, false);
  }

  /** Frames emitted earlier in front of a cut. */
  function Prepend(fs: seq<Bytes>, c: Cut): Cut {
    Cut(fs + c.frames, c.rest, c.err)
  }

  lemma PrependAssoc(fs: seq<Bytes>, f: Bytes, c: Cut)
    ensures Prepend(fs, Prepend([f], c)) == Prepend(fs + [f], c)
  {
    assert fs + ([f] + c.frames) == (fs + [f]) + c.frames;
  }

  /** One turn of the loop: a complete frame at the front is cut off. */
  lemma SplitUnfold(parse: HeaderParser, data: Bytes, total: nat)
    requires |data| > HeadLength && parse(data[..HeadLength]).Ok?
    requires total == HeadLength + parse(data[..HeadLength]).value.size <= |data|
    ensures Split(parse, data) == Prepend([data[..total]], Split(parse, data[total..]))
  {
  }

  /** Lines 70-79: an empty remainder resets the buffer; otherwise the
      remainder is written into a buffer from the pool and the drained buffer
      is reset and returned to the pool. */
  function Rehome(inbound: Buffer, pool: Pool, pick: Option<nat>): (r: Result<(Buffer, Pool), Panic>)
    requires Valid(inbound) && Clean(pool) && Bounded(pool)
    ensures r.Ok? ==>
      && Valid(r.value.0) && Unread(r.value.0) == Unread(inbound)
      && Clean(r.value.1) && Bounded(r.value.1)
    ensures Len(inbound) == 0 ==> r == Ok((Reset(inbound), pool))
    ensures r.Err? ==> r.error == PanicTooLarge
  {
    var data := Unread(inbound);
    if |data| == 0 then Ok((Reset(inbound), pool))
    else
      var got := Get(pool, pick);
      assert Unread(got.1) == [];
      match Write(got.1, data)
      case Err(e) => Err(e)
      case Ok((moved, _)) =>
        var back := Put(got.0, Some(Reset(inbound)));
        PutKeepsBound(got.0, Some(Reset(inbound)));
        assert Clean(back) by {
          assert back.items == got.0.items || back.items == got.0.items + [Reset(inbound)];
        }
        Ok((moved, back))
  }

  /** onReceiveData(buff), with `pick` the pool's choice in Rehome. Writing to a bytes.Buffer can only fail by
      panicking with ErrTooLarge, which is the `Err` outcome here. */
  method OnReceiveData(parse: HeaderParser, c: AioConn, buff: Bytes, pick: Option<nat>) returns (r: Result<Step, Panic>)
    requires Good(c)
    ensures r.Ok? ==>
      var c' := r.value.conn;
      var cut := Split(parse, Unread(c.inbound) + buff);
      && Good(c')
      && c'.received == c.received + DataMessages(cut.frames)
      && Unread(c'.inbound) == cut.rest
      && r.value.err == cut.err
    ensures r.Err? ==> r.error == PanicTooLarge
  {
    var written := Write(c.inbound, buff);
    if written.Err? {
      return Err(written.error);
    }
    var d := Drain(parse, written.value.0);
    var received := c.received + DataMessages(d.frames);
    if d.returned {
      return Ok(Step(AioConn(d.inbound, c.pool, received), d.err));
    }
    var moved := Rehome(d.inbound, c.pool, pick);
    if moved.Err? {
      return Err(moved.error);
    }
    return Ok(Step(AioConn(moved.value.0, moved.value.1, received), None));
  }

  /** Feeding a sequence of reads: each read is cut as onReceiveData cuts it,
      and a header error stops the connection. */
  function Feed(parse: HeaderParser, pending: Bytes, chunks: seq<Bytes>): Cut
    decreases |chunks|
  {
    if chunks == [] then Cut([], pending, None)
    else
      var c := Split(parse, pending + chunks[0]);
      if c.err.Some? then c
      else
        var t := Feed(parse, c.rest, chunks[1..]);
        Cut(c.frames + t.frames, t.rest, t.err)
  }

  /** A single frame of more than HeadLength bytes is emitted whole. */
  lemma SplitOneFrame(parse: HeaderParser, f: Bytes)
    requires IsFrame(parse, f) && |f| > HeadLength
    ensures Split(parse, f) == Cut([f], [], None)
  {
    var h := parse(f[..HeadLength]).value;
    assert f[..HeadLength + h.size] == f;
    assert f[HeadLength + h.size..] == [];
  }

  /** A proper prefix of a frame emits nothing and is kept whole. */
  lemma SplitProperPrefix(parse: HeaderParser, f: Bytes, q: Bytes)
    requires IsFrame(parse, f)
    requires |q| < |f| && q == f[..|q|]
    ensures Split(parse, q) == Cut([], q, None)
  {
    if |q| > HeadLength {
      assert q[..HeadLength] == f[..HeadLength];
    }
  }

  /** A frame whose payload is empty is exactly HeadLength bytes and stays
      buffered: the loop needs strictly more than HeadLength bytes. */
  lemma EmptyPayloadFrameStaysBuffered(parse: HeaderParser, f: Bytes)
    requires IsFrame(parse, f) && |f| == HeadLength
    ensures Split(parse, f) == Cut([], f, None)
  {
  }

  /** The cut with the loop running while a whole head is buffered
      (len(data) >= headLength): the corrected guard, under which a frame
      with an empty payload is emitted like any other. */
  function SplitComplete(parse: HeaderParser, data: Bytes): (c: Cut)
    ensures Concat(c.frames) + c.rest == data
    ensures forall i :: 0 <= i < |c.frames| ==> IsFrame(parse, c.frames[i])
    ensures c.err.Some? ==>
      |c.rest| >= HeadLength && parse(c.rest[..HeadLength]) == Err(c.err.value)
    decreases |data|
  {
    if |data| < HeadLength then Cut([], data, None)
    else
      match parse(data[..HeadLength])
      case Err(e) => Cut([], data, Some(e))
      case Ok(h) =>
        var total := HeadLength + h.size;
        if |data| < total then Cut([], data, None)
        else
          var tail := SplitComplete(parse, data[total..]);
          FrontFrame(parse, data, total, tail);
          Cut([data[..total]] + tail.frames, tail.rest, tail.err)
  }

  /** The frame at the front of data, put in front of the cut of the bytes
      after it, is a well-formed frame and the pieces still make up data. */
  lemma FrontFrame(parse: HeaderParser, data: Bytes, total: nat, tail: Cut)
    requires |data| >= HeadLength && parse(data[..HeadLength]).Ok?
    requires total == HeadLength + parse(data[..HeadLength]).value.size <= |data|
    requires Concat(tail.frames) + tail.rest == data[total..]
    ensures IsFrame(parse, data[..total])
    ensures Concat([data[..total]] + tail.frames) + tail.rest == data
  {
    var frame := data[..total];
    var frames := [frame] + tail.frames;
    assert frame[..HeadLength] == data[..HeadLength];
    assert frames[1..] == tail.frames;
    assert Concat(frames) + tail.rest == frame + (Concat(tail.frames) + tail.rest);
    assert frame + data[total..] == data;
  }

  /** Under the corrected guard, bytes made of whole frames are cut into
      exactly those frames with nothing left over, empty payloads included. */
  lemma {:induction false} SplitCompleteFrames(parse: HeaderParser, fs: seq<Bytes>)
    requires forall i :: 0 <= i < |fs| ==> IsFrame(parse, fs[i])
    ensures SplitComplete(parse, Concat(fs)) == Cut(fs, [], None)
    decreases |fs|
  {
    if fs != [] {
      var f := fs[0];
      var data := Concat(fs);
      assert data == f + Concat(fs[1..]);
      assert data[..HeadLength] == f[..HeadLength];
      assert data[..|f|] == f && data[|f|..] == Concat(fs[1..]);
      SplitCompleteFrames(parse, fs[1..]);
      assert [f] + fs[1..] == fs;
    }
  }

  /** The corrected half for the lone heartbeat: a 4-byte frame is emitted. */
  lemma EmptyPayloadFrameEmitted(parse: HeaderParser, f: Bytes)
    requires IsFrame(parse, f) && |f| == HeadLength
    ensures SplitComplete(parse, f) == Cut([f], [], None)
  {
    assert Concat([f]) == f + Concat([f][1..]);
    assert f + [] == f;
    SplitCompleteFrames(parse, [f]);
  }

  lemma {:induction false} FeedEmptyChunks(parse: HeaderParser, chunks: seq<Bytes>)
    requires Concat(chunks) == []
    ensures Feed(parse, [], chunks) == Cut([], [], None)
    decreases |chunks|
  {
    if chunks != [] {
      assert chunks[0] == [];
      assert [] + chunks[0] == [];
      FeedEmptyChunks(parse, chunks[1..]);
    }
  }

  /** However a frame is split across reads, it is emitted exactly once,
      whole, and nothing is left over. */
  lemma {:induction false} FeedSplitFrame(parse: HeaderParser, f: Bytes, pending: Bytes, chunks: seq<Bytes>)
    requires IsFrame(parse, f) && |f| > HeadLength
    requires pending + Concat(chunks) == f && |pending| < |f|
    ensures Feed(parse, pending, chunks) == Cut([f], [], None)
    decreases |chunks|
  {
    assert chunks != [];
    var q := pending + chunks[0];
    assert q + Concat(chunks[1..]) == f;
    if |q| < |f| {
      assert q == f[..|q|];
      SplitProperPrefix(parse, f, q);
      FeedSplitFrame(parse, f, q, chunks[1..]);
    } else {
      assert q == f;
      SplitOneFrame(parse, f);
      FeedEmptyChunks(parse, chunks[1..]);
    }
  }
}
