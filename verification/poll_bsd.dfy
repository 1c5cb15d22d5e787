/** epoll/poll_bsd.go Poll: the older kqueue poller. Its `add` and `remove`
    are the same code as WsPollBsd's; it differs in the default buffer size
    and in pollData, whose type assertion on the registry lookup is
    unchecked, so an event for an unregistered descriptor panics. */
module PollBsd {
  import opened Wrappers
  import opened Wire
  import opened ChangeList
  import opened Poller
  import WsPollBsd

  const DefaultBufferSize: int := 128

  /** NewPoll(bufferSize): a non-positive size becomes 128. */
  function BufferSize(bufferSize: int): (n: int)
    ensures n > 0
    ensures bufferSize > 0 ==> n == bufferSize
    ensures bufferSize <= 0 ==> n == DefaultBufferSize
  {
    if bufferSize <= 0 then DefaultBufferSize else bufferSize
  }

  /** The loop body of pollData for one event. */
  method Step(parse: HeaderParser, p: Poll, e: Ready) returns (r: Result<Poll, Panic>)
    ensures r.Err? <==> e.ident !in p.conns
    ensures r.Err? ==> r.error == PanicTypeAssertion
    ensures r.Ok? ==>
      var item := p.conns[e.ident];
      var m := WsPollBsd.EventMessage(parse, e);
      && r.value.delivered == p.delivered + [Delivery(item, m)]
      && (m.DataMessage? ==> r.value == Push(p, item, m))
      && (m.ErrorMessage? ==> r.value.closedConns == p.closedConns + [item])
      && (m.ErrorMessage? && WsPollBsd.Good(p) ==> e.ident !in r.value.conns)
    ensures r.Ok? && WsPollBsd.Good(p) ==> WsPollBsd.Good(r.value)
  {
    if e.ident !in p.conns {
      return Err(PanicTypeAssertion);
    }
    var item := p.conns[e.ident];
    var m := WsPollBsd.EventMessage(parse, e);
    var pushed := Push(p, item, m);
    if m.ErrorMessage? {
      pushed := WsPollBsd.Remove(pushed, item);
    }
    return Ok(pushed);
  }

  /** pollData over the returned events: the first event for a descriptor
      that is not registered (at that moment) panics. */
  method PollData(parse: HeaderParser, p: Poll, events: seq<Ready>) returns (r: Result<Poll, Panic>)
    ensures r.Ok? && WsPollBsd.Good(p) ==> WsPollBsd.Good(r.value)
    ensures r.Ok? ==> |r.value.delivered| == |p.delivered| + |events|
    ensures r.Ok? ==> r.value.delivered[..|p.delivered|] == p.delivered
    ensures r.Err? ==> r.error == PanicTypeAssertion && events != []
  {
    var cur := p;
    var i := 0;
    while i < |events|
      invariant 0 <= i <= |events|
      invariant WsPollBsd.Good(p) ==> WsPollBsd.Good(cur)
      invariant |cur.delivered| == |p.delivered| + i
      invariant cur.delivered[..|p.delivered|] == p.delivered
    {
      var next := Step(parse, cur, events[i]);
      if next.Err? {
        return Err(next.error);
      }
      assert next.value.delivered[..|cur.delivered|] == cur.delivered;
      cur := next.value;
      i := i + 1;
    }
    return Ok(cur);
  }
}
