/** epoll/ws_poll_linux.go WsPoll: the epoll poller for WebSocket
    connections. There is no change list: `add` registers with the OS and the
    registry, `remove` unregisters and closes. A hang-up removes the
    connection without pushing anything; events for unknown descriptors are
    skipped. */
module WsPollLinux {
  import opened Wrappers
  import opened Wire
  import opened Poller

  /** `add(conn)`: `registered` is whether EPOLL_CTL_ADD succeeded; on
      failure nothing is registered and nil is returned. */
  function Add(p: Poll, conn: PlayerConn, registered: bool): (r: (Poll, Option<PlayerConn>))
    ensures !registered ==> r == (p, None)
    ensures registered ==>
      && r.1 == Some(conn)
      && r.0.conns == p.conns[conn.fd := conn]
      && r.0.(conns := p.conns) == p
    ensures Keyed(p) ==> Keyed(r.0)
  {
    if !registered then (p, None)
    else (p.(conns := p.conns[conn.fd := conn]), Some(conn))
  }

  /** `remove(item)`: drop the registry entry and close the connection. */
  function Remove(p: Poll, item: PlayerConn): (r: Poll)
    ensures r.conns == p.conns - {item.fd}
    ensures r.closedConns == p.closedConns + [item]
    ensures r.delivered == p.delivered && r.changes == p.changes && r.shut == p.shut
    ensures Keyed(p) ==> Keyed(r)
  {
    p.(conns := p.conns - {item.fd}, closedConns := p.closedConns + [item])
  }

  /** The loop body of pollData for one event. */
  function Step(parse: HeaderParser, p: Poll, e: Ready): (r: Poll)
    ensures e.ident !in p.conns ==> r == p
    ensures e.ident in p.conns && e.hangUp ==>
      r.delivered == p.delivered && r == Remove(p, p.conns[e.ident])
    ensures e.ident in p.conns && !e.hangUp ==>
      var item := p.conns[e.ident];
      var m := ReadMessage(parse, e.read);
      && r.delivered == p.delivered + [Delivery(item, m)]
      && (m.DataMessage? ==> r == Push(p, item, m))
      && (m.ErrorMessage? ==> r == Remove(Push(p, item, m), item))
    ensures Keyed(p) && e.ident in p.conns && (e.hangUp || ReadMessage(parse, e.read).ErrorMessage?) ==>
      e.ident !in r.conns
    ensures Keyed(p) ==> Keyed(r)
  {
    if e.ident !in p.conns then p
    else
      var item := p.conns[e.ident];
      if e.hangUp then Remove(p, item)
      else
        var m := ReadMessage(parse, e.read);
        if m.ErrorMessage? then Remove(Push(p, item, m), item)
        else Push(p, item, m)
  }

  /** `c` is the connection registered under its descriptor. */
  predicate Registered(p: Poll, c: PlayerConn) {
    c.fd in p.conns && p.conns[c.fd] == c
  }

  /** pollData over the events epoll_wait returned, in order. */
  function PollData(parse: HeaderParser, p: Poll, events: seq<Ready>): (r: Poll)
    decreases |events|
  {
    if events == [] then p else PollData(parse, Step(parse, p, events[0]), events[1..])
  }

  /** Handling events never registers a connection, keeps every connection
      under its own descriptor, pushes at most one message per event, and
      pushes only to connections that were registered before. */
  lemma {:induction false} PollDataShrinks(parse: HeaderParser, p: Poll, events: seq<Ready>)
    requires Keyed(p)
    ensures var r := PollData(parse, p, events);
      && Keyed(r)
      && (forall fd :: fd in r.conns ==> fd in p.conns && r.conns[fd] == p.conns[fd])
      && |p.delivered| <= |r.delivered| <= |p.delivered| + |events|
      && r.delivered[..|p.delivered|] == p.delivered
      && forall i :: |p.delivered| <= i < |r.delivered| ==> Registered(p, r.delivered[i].to)
    decreases |events|
  {
    if events != [] {
      var q := Step(parse, p, events[0]);
      PollDataShrinks(parse, q, events[1..]);
      var r := PollData(parse, q, events[1..]);
      assert r.delivered[..|q.delivered|] == q.delivered;
      assert q.delivered[..|p.delivered|] == p.delivered;
      forall i | |p.delivered| <= i < |r.delivered|
        ensures Registered(p, r.delivered[i].to)
      {
        if i < |q.delivered| {
          assert r.delivered[i] == q.delivered[i];
        }
      }
    }
  }
}
