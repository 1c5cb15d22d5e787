/** A blocking net.Conn seen from the reading side: the bytes still to come
    and how the stream ends once they are used up. */
module Stream {
  import opened Wrappers
  import opened Wire

  datatype End =
    | AtEOF               // Read returns io.EOF
    | AtError(e: Error)   // Read returns another error
    | AtPanic(p: Panic)   // Read panics

  datatype Stream = Stream(data: Bytes, end: End)

  /** How a read (and, further up, a whole call) finished. */
  datatype Status = Fine | Failed(err: Error) | Raised(p: Panic)

  /** A "read one frame" call: the frame (empty on failure), the stream
      afterwards and how the call finished. */
  datatype FrameRead = FrameRead(frame: Bytes, rest: Stream, status: Status)

  datatype Limited = Limited(chunk: Bytes, rest: Stream, status: Status)

  /** Reading everything from io.LimitReader(conn, n), as ioutil.ReadAll and
      bytes.Buffer.ReadFrom do: up to n bytes, and io.EOF counts as success. */
  function ReadLimited(s: Stream, n: nat): (r: Limited)
    ensures r.chunk + r.rest.data == s.data && r.rest.end == s.end
    ensures |r.chunk| == Min(n, |s.data|)
    ensures r.status.Fine? <==> |s.data| >= n || s.end == AtEOF
    ensures r.status.Failed? <==> |s.data| < n && s.end.AtError?
    ensures r.status.Failed? ==> r.status.err == s.end.e
    ensures r.status.Raised? ==> |s.data| < n && s.end == AtPanic(r.status.p)
  {
    if n <= |s.data| then Limited(s.data[..n], Stream(s.data[n..], s.end), Fine)
    else
      var rest := Stream([], s.end);
      assert s.data + [] == s.data;
      match s.end
      case AtEOF => Limited(s.data, rest, Fine)
      case AtError(e) => Limited(s.data, rest, Failed(e))
      case AtPanic(p) => Limited(s.data, rest, Raised(p))
  }

  /** The head a "read one frame" call reads: at most HeadLength bytes. */
  function Head(s: Stream): (h: Bytes)
    ensures |h| == Min(HeadLength, |s.data|) && h == s.data[..|h|]
  {
    s.data[..Min(HeadLength, |s.data|)]
  }

  /** Whether reading the head succeeds: the stream holds a whole head, or
      ends cleanly with io.EOF. */
  predicate HeadRead(s: Stream) {
    |s.data| >= HeadLength || s.end == AtEOF
  }
}
