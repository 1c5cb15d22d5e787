/** epoll/ws_poll_bsd.go WsPoll: the kqueue poller for WebSocket
    connections. `add` appends a change and registers the connection,
    `remove` deletes the first change for its descriptor and unregisters it,
    and each readiness event pushes one message to a registered connection.
    Events for descriptors no longer registered are skipped. */
module WsPollBsd {
  import opened Wrappers
  import opened Wire
  import opened ChangeList
  import opened Poller

  /** Every registered descriptor still has a change-list entry. */
  predicate Tracked(p: Poll) {
    forall fd :: fd in p.conns ==> Mentions(p.changes, fd)
  }

  predicate Good(p: Poll) {
    Keyed(p) && Tracked(p)
  }

  /** `add(conn)`: one read-interest change at the end of the list and the
      connection registered under its descriptor. */
  function Add(p: Poll, conn: PlayerConn): (r: Poll)
    ensures |r.changes| == |p.changes| + 1
    ensures r.changes[..|p.changes|] == p.changes && r.changes[|p.changes|] == Kevent(conn.fd)
    ensures r.conns == p.conns[conn.fd := conn]
    ensures r.delivered == p.delivered && r.closedConns == p.closedConns && r.shut == p.shut
    ensures Good(p) ==> Good(r)
  {
    var changes := ChangeList.Add(p.changes, conn.fd);
    assert forall fd :: Mentions(p.changes, fd) ==> Mentions(changes, fd) by {
      forall fd | Mentions(p.changes, fd) ensures Mentions(changes, fd) {
        var i :| 0 <= i < |p.changes| && p.changes[i].ident == fd;
        assert changes[i] == p.changes[i];
      }
    }
    assert changes[|p.changes|].ident == conn.fd;
    p.(changes := changes, conns := p.conns[conn.fd := conn])
  }

  /** `remove(item)`: the change list and the registry lose the descriptor
      only if the list mentions it; the connection is closed either way. */
  method Remove(p: Poll, item: PlayerConn) returns (r: Poll)
    ensures Mentions(p.changes, item.fd) ==>
      && r.changes == RemoveFirst(p.changes, item.fd)
      && |r.changes| == |p.changes| - 1
      && r.conns == p.conns - {item.fd}
    ensures !Mentions(p.changes, item.fd) ==> r.changes == p.changes && r.conns == p.conns
    ensures r.closedConns == p.closedConns + [item]
    ensures r.delivered == p.delivered && r.shut == p.shut
    ensures Good(p) ==> Good(r)
  {
    var changes, found := ChangeList.Remove(p.changes, item.fd);
    r := p;
    if found {
      r := r.(changes := changes, conns := p.conns - {item.fd});
      forall fd | fd in r.conns
        ensures Tracked(p) ==> Mentions(r.changes, fd)
      {
        if Tracked(p) {
          RemoveFirstKeepsOthers(p.changes, item.fd, fd);
        }
      }
    }
    r := r.(closedConns := p.closedConns + [item]);
  }

  /** The one message an event for a registered connection pushes. */
  function EventMessage(parse: HeaderParser, e: Ready): (m: Message)
    ensures e.hangUp ==> m == ErrorMessage(EOF)
    ensures !e.hangUp ==> m == ReadMessage(parse, e.read)
  {
    if e.hangUp then ErrorMessage(EOF) else ReadMessage(parse, e.read)
  }

  /** The body of the event loop in pollData for one event. */
  method Step(parse: HeaderParser, p: Poll, e: Ready) returns (r: Poll)
    ensures e.ident !in p.conns ==> r == p
    ensures e.ident in p.conns ==>
      var item := p.conns[e.ident];
      var m := EventMessage(parse, e);
      && r.delivered == p.delivered + [Delivery(item, m)]
      && (m.DataMessage? ==> r == Push(p, item, m))
      && (m.ErrorMessage? ==> r.closedConns == p.closedConns + [item])
      && (m.ErrorMessage? && Good(p) ==> e.ident !in r.conns)
    ensures Good(p) ==> Good(r)
  {
    if e.ident !in p.conns {
      return p;
    }
    var item := p.conns[e.ident];
    var m := EventMessage(parse, e);
    r := Push(p, item, m);
    if m.ErrorMessage? {
      r := Remove(r, item);
    }
  }

  /** The loop over the events kevent returned (outside this model): each
      is handled in order. */
  method HandleEvents(parse: HeaderParser, p: Poll, events: seq<Ready>) returns (r: Poll)
    ensures Good(p) ==> Good(r)
    ensures |p.delivered| <= |r.delivered| <= |p.delivered| + |events|
    ensures r.delivered[..|p.delivered|] == p.delivered
  {
    r := p;
    var i := 0;
    while i < |events|
      invariant 0 <= i <= |events|
      invariant Good(p) ==> Good(r)
      invariant |p.delivered| <= |r.delivered| <= |p.delivered| + i
      invariant r.delivered[..|p.delivered|] == p.delivered
    {
      ghost var before := r;
      r := Step(parse, r, events[i]);
      assert r.delivered[..|before.delivered|] == before.delivered;
      i := i + 1;
    }
  }

  /** pollData as written: the snapshot of the change list goes to kevent,
      then every returned event is handled. With more changes pending than
      the loop's buffer holds, takeSnapshot panics before kevent is called
      and nothing is handled. */
  method PollData(parse: HeaderParser, p: Poll, bufferSize: nat, events: seq<Ready>)
    returns (snapshot: Result<seq<Kevent>, Panic>, r: Poll)
    ensures snapshot.Err? <==> |p.changes| > bufferSize
    ensures snapshot.Err? ==> snapshot.error == PanicSliceBounds && r == p
    ensures snapshot.Ok? ==> snapshot.value == p.changes
    ensures Good(p) ==> Good(r)
    ensures |p.delivered| <= |r.delivered| <= |p.delivered| + |events|
    ensures r.delivered[..|p.delivered|] == p.delivered
  {
    snapshot := TakeSnapshot(p.changes, bufferSize);
    if snapshot.Err? {
      return snapshot, p;
    }
    r := HandleEvents(parse, p, events);
  }

  /** pollData with the growing snapshot: kevent always sees every pending
      change, for any buffer size. */
  method PollDataGrowing(parse: HeaderParser, p: Poll, bufferSize: nat, events: seq<Ready>)
    returns (snapshot: seq<Kevent>, r: Poll)
    ensures snapshot == p.changes
    ensures Good(p) ==> Good(r)
    ensures |p.delivered| <= |r.delivered| <= |p.delivered| + |events|
    ensures r.delivered[..|p.delivered|] == p.delivered
  {
    snapshot := TakeGrowingSnapshot(p.changes, bufferSize);
    r := HandleEvents(parse, p, events);
  }
}
