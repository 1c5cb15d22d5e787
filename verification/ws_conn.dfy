/** epoll/ws_conn.go WsConn.onReceiveData: the WebSocket reassembly loop.
    Incoming bytes are appended to the connection's input buffer; while more
    than HeadLength bytes are unread, one WebSocket frame is read (section 5.2
    of RFC 6455, a collaborator this model does not define), and the offset is
    rolled back whenever the frame is not yet complete. */
module WsConn {
  import opened Wrappers
  import opened Wire
  import opened Buffer
  import opened FrameCheck

  /** One call of wsutil.ReadData over the unread bytes: the frame payload,
      how many bytes the reader took from the buffer, and its error. */
  datatype WsRead = WsRead(data: Bytes, used: nat, err: Option<Error>)

  type WsReader = Bytes -> WsRead

  /** The reader never takes more than is there, and a frame it returns
      costs at least one byte. */
  ghost predicate Reads(reader: WsReader) {
    forall s: Bytes {:trigger reader(s)} ::
      && reader(s).used <= |s|
      && (reader(s).err.None? ==> reader(s).used > 0)
  }

  /** The two errors that mean "the frame is not complete yet". */
  predicate Incomplete(e: Error) {
    e == EOF || e == UnexpectedEOF
  }

  /** What one call leaves: the messages pushed, the unread content, the
      error returned, and whether the loop ran out normally (and so tidied). */
  datatype WsCut = WsCut(pushed: seq<Message>, rest: Bytes, err: Option<Error>, tidied: bool)

  /** What the loop may push: data messages whose payloads passed the frame
      check, then at most one error message, which is the error returned. */
  predicate Pushes(parse: HeaderParser, pushed: seq<Message>, err: Option<Error>) {
    && (err.Some? <==> (pushed != [] && pushed[|pushed| - 1].ErrorMessage?))
    && (err.Some? ==> pushed[|pushed| - 1] == ErrorMessage(err.value))
    && (forall i :: 0 <= i < |pushed| && pushed[i].DataMessage? ==> IsFrame(parse, pushed[i].data))
    && (forall i :: 0 <= i < |pushed| - 1 ==> pushed[i].DataMessage?)
  }

  /** A frame pushed ahead of what the rest of the loop pushes. */
  lemma PushFrame(parse: HeaderParser, data: Bytes, pushed: seq<Message>, err: Option<Error>)
    requires IsFrame(parse, data) && Pushes(parse, pushed, err)
    ensures Pushes(parse, [DataMessage(data)] + pushed, err)
  {
    var p := [DataMessage(data)] + pushed;
    assert forall i :: 0 < i < |p| ==> p[i] == pushed[i - 1];
  }

  /** Content-level reference of the loop over unread bytes `data`. */
  function WsSplit(reader: WsReader, parse: HeaderParser, data: Bytes): (c: WsCut)
    requires Reads(reader)
    ensures |c.rest| <= |data| && c.rest == data[|data| - |c.rest|..]
    ensures c.tidied ==> |c.rest| <= HeadLength && c.err.None?
    ensures Pushes(parse, c.pushed, c.err)
    decreases |data|
  {
    if |data| <= HeadLength then WsCut([], data, None, true)
    else
      var r := reader(data);
      if r.err.Some? then
        if Incomplete(r.err.value) then WsCut([], data, None, false)
        else WsCut([ErrorMessage(r.err.value)], data[r.used..], r.err, false)
      else if CheckReceivedMsgBytes(parse, r.data).Some? then
        CheckPassesIffFrame(parse, r.data);
        WsCut([], data, None, false)
      else
        CheckPassesIffFrame(parse, r.data);
        var t := WsSplit(reader, parse, data[r.used..]);
        PushFrame(parse, r.data, t.pushed, t.err);
        WsCut([DataMessage(r.data)] + t.pushed, t.rest, t.err, t.tidied)
  }

  datatype WsConn = WsConn(input: Buffer, received: seq<Message>)

  /** One pass of the decode loop's body over an input holding more than a
      head: read one frame, and either return (`stop`), with the offset rolled
      back or the error pushed, or push the frame and go on with `next`. */
  method DecodeStep(reader: WsReader, parse: HeaderParser, input: Buffer)
    returns (next: Buffer, msgs: seq<Message>, stop: bool, err: Option<Error>)
    requires Reads(reader) && Valid(input) && Len(input) > HeadLength
    ensures Valid(next)
    ensures stop ==> WsSplit(reader, parse, Unread(input)) == WsCut(msgs, Unread(next), err, false)
    ensures !stop ==>
      var tail := WsSplit(reader, parse, Unread(next));
      && Len(next) < Len(input)
      && WsSplit(reader, parse, Unread(input)) == WsCut(msgs + tail.pushed, tail.rest, tail.err, tail.tidied)
  {
    ghost var data := Unread(input);
    var lastOffset := GetOffset(input);
    var r := reader(Unread(input));
    var read := Next(input, r.used).value.0;
    if r.err.Some? {
      if Incomplete(r.err.value) {
        IncompleteFrameKeepsInput(reader, parse, data);
        return SetOffset(read, lastOffset), [], true, None;
      }
      assert Unread(read) == data[r.used..];
      return read, [ErrorMessage(r.err.value)], true, r.err;
    }
    CheckPassesIffFrame(parse, r.data);
    if CheckReceivedMsgBytes(parse, r.data).Some? {
      FailedCheckKeepsInput(reader, parse, data);
      return SetOffset(read, lastOffset), [], true, None;
    }
    PassingFrameIsPushed(reader, parse, data);
    assert Unread(read) == data[r.used..];
    return read, [DataMessage(r.data)], false, None;
  }

  /** The decode loop (lines 52-73) over a valid input buffer, written as
      recursion: each call runs one pass and the recursive call runs the
      passes after it. A normal exit tidies the input. */
  method Decode(reader: WsReader, parse: HeaderParser, input0: Buffer)
    returns (input: Buffer, pushed: seq<Message>, err: Option<Error>)
    requires Reads(reader) && Valid(input0)
    ensures
      var cut := WsSplit(reader, parse, Unread(input0));
      && Valid(input) && Unread(input) == cut.rest
      && pushed == cut.pushed && err == cut.err
      && (cut.tidied ==> input.off == 0)
    decreases Len(input0)
  {
    if Len(input0) <= HeadLength {
      assert WsSplit(reader, parse, Unread(input0)) == WsCut([], Unread(input0), None, true);
      return Tidy(input0), [], None;
    }
    var next, msgs, stop, e := DecodeStep(reader, parse, input0);
    if stop {
      return next, msgs, e;
    }
    var more;
    input, more, err := Decode(reader, parse, next);
    pushed := msgs + more;
  }

  /** onReceiveData(buff). Appending to the input can only fail by panicking
      with ErrTooLarge, the `Err` outcome here. */
  method OnReceiveData(reader: WsReader, parse: HeaderParser, c: WsConn, buff: Bytes)
    returns (r: Result<(WsConn, Option<Error>), Panic>)
    requires Reads(reader) && Valid(c.input)
    ensures r.Ok? ==>
      var (c', err) := r.value;
      var cut := WsSplit(reader, parse, Unread(c.input) + buff);
      && Valid(c'.input)
      && Unread(c'.input) == cut.rest
      && c'.received == c.received + cut.pushed
      && err == cut.err
    ensures r.Err? ==> r.error == PanicTooLarge
  {
    var written := Write(c.input, buff);
    if written.Err? {
      return Err(written.error);
    }
    var input, pushed, err := Decode(reader, parse, written.value.0);
    return Ok((WsConn(input, c.received + pushed), err));
  }

  /** A frame the reader has not yet seen whole leaves everything unread and
      pushes nothing. */
  lemma IncompleteFrameKeepsInput(reader: WsReader, parse: HeaderParser, data: Bytes)
    requires Reads(reader) && |data| > HeadLength
    requires reader(data).err.Some? && Incomplete(reader(data).err.value)
    ensures WsSplit(reader, parse, data) == WsCut([], data, None, false)
  {
  }

  /** A payload that fails the frame check is not pushed and stays unread, so
      the same bytes are read again first on the next call. */
  lemma FailedCheckKeepsInput(reader: WsReader, parse: HeaderParser, data: Bytes)
    requires Reads(reader) && |data| > HeadLength
    requires reader(data).err.None? && !IsFrame(parse, reader(data).data)
    ensures WsSplit(reader, parse, data) == WsCut([], data, None, false)
  {
    CheckPassesIffFrame(parse, reader(data).data);
  }

  /** A reader error other than EOF pushes exactly that error and stops. */
  lemma ReaderErrorPushedOnce(reader: WsReader, parse: HeaderParser, data: Bytes)
    requires Reads(reader) && |data| > HeadLength
    requires reader(data).err.Some? && !Incomplete(reader(data).err.value)
    ensures WsSplit(reader, parse, data).pushed == [ErrorMessage(reader(data).err.value)]
    ensures WsSplit(reader, parse, data).err == reader(data).err
  {
  }

  /** A complete frame that passes the frame check is pushed as data, and
      decoding goes on with the bytes after it. */
  lemma PassingFrameIsPushed(reader: WsReader, parse: HeaderParser, data: Bytes)
    requires Reads(reader) && |data| > HeadLength
    requires reader(data).err.None? && IsFrame(parse, reader(data).data)
    ensures var t := WsSplit(reader, parse, data[reader(data).used..]);
      WsSplit(reader, parse, data) == WsCut([DataMessage(reader(data).data)] + t.pushed, t.rest, t.err, t.tidied)
  {
    CheckPassesIffFrame(parse, reader(data).data);
  }
}
