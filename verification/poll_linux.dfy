/** epoll/poll_linux.go Poll: the older epoll poller. `add` and `remove` are
    the same code as WsPollLinux's; in pollData the type assertion on the
    registry lookup is unchecked, so an event for a descriptor that is not
    registered panics instead of being skipped. */
module PollLinux {
  import opened Wrappers
  import opened Wire
  import opened Poller
  import WsPollLinux

  /** The loop body of pollData for one event. */
  function Step(parse: HeaderParser, p: Poll, e: Ready): (r: Result<Poll, Panic>)
    ensures r.Err? <==> e.ident !in p.conns
    ensures r.Err? ==> r.error == PanicTypeAssertion
    ensures r.Ok? && e.hangUp ==>
      r.value.delivered == p.delivered && r.value == WsPollLinux.Remove(p, p.conns[e.ident])
    ensures r.Ok? && !e.hangUp ==>
      var item := p.conns[e.ident];
      var m := ReadMessage(parse, e.read);
      && r.value.delivered == p.delivered + [Delivery(item, m)]
      && (m.DataMessage? ==> r.value == Push(p, item, m))
      && (m.ErrorMessage? ==> r.value == WsPollLinux.Remove(Push(p, item, m), item))
  {
    if e.ident !in p.conns then Err(PanicTypeAssertion)
    else
      var item := p.conns[e.ident];
      if e.hangUp then Ok(WsPollLinux.Remove(p, item))
      else
        var m := ReadMessage(parse, e.read);
        if m.ErrorMessage? then Ok(WsPollLinux.Remove(Push(p, item, m), item))
        else Ok(Push(p, item, m))
  }

  function PollData(parse: HeaderParser, p: Poll, events: seq<Ready>): (r: Result<Poll, Panic>)
    decreases |events|
  {
    if events == [] then Ok(p)
    else
      match Step(parse, p, events[0])
      case Err(e) => Err(e)
      case Ok(q) => PollData(parse, q, events[1..])
  }

  /** Where this poller does not panic it behaves exactly as the WebSocket
      variant, which skips unknown descriptors instead. */
  lemma {:induction false} AgreesWhenRegistered(parse: HeaderParser, p: Poll, events: seq<Ready>)
    requires PollData(parse, p, events).Ok?
    ensures PollData(parse, p, events).value == WsPollLinux.PollData(parse, p, events)
    decreases |events|
  {
    if events != [] {
      var q := Step(parse, p, events[0]).value;
      assert q == WsPollLinux.Step(parse, p, events[0]);
      AgreesWhenRegistered(parse, q, events[1..]);
    }
  }

  /** An event for a connection that an earlier event in the same batch
      removed panics the loop. */
  lemma EventAfterRemovalPanics(parse: HeaderParser, p: Poll, c: PlayerConn, e: Ready)
    requires Keyed(p) && c.fd in p.conns && e.ident == c.fd
    ensures PollData(parse, p, [Ready(c.fd, true, e.read), e]).Err?
  {
    var q := Step(parse, p, Ready(c.fd, true, e.read)).value;
    assert c.fd !in q.conns;
    assert [Ready(c.fd, true, e.read), e][1..] == [e];
  }
}
