/** State shared by the four pollers (epoll/ws_poll_bsd.go, epoll/poll_bsd.go,
    epoll/ws_poll_linux.go, epoll/poll_linux.go): the registry of connections
    by descriptor, the kqueue change list (always empty for the Linux
    pollers), the messages pushed onto the connections' received channels,
    the connections closed so far, and the loom.WaitClose once-flag. */
module Poller {
  import opened Wrappers
  import opened Wire
  import opened FrameCheck
  import opened ChangeList

  /** A connection handed out by `add`: its descriptor and which net.Conn it
      wraps. */
  datatype PlayerConn = PlayerConn(fd: int, id: nat)

  /** One message pushed onto a connection's received channel. */
  datatype Delivery = Delivery(to: PlayerConn, msg: Message)

  datatype Poll = Poll(
    changes: seq<Kevent>,
    conns: map<int, PlayerConn>,
    delivered: seq<Delivery>,
    closedConns: seq<PlayerConn>,
    shut: bool)

  const Empty: Poll := Poll([], map[], [], [], false)

  /** One readiness event: the descriptor, whether the end-of-file (kqueue) or
      hang-up (epoll) flag is set, and what reading one WebSocket message
      from the connection would return. */
  datatype Ready = Ready(ident: int, hangUp: bool, read: Result<Bytes, Error>)

  /** Every registered connection is stored under its own descriptor. */
  predicate Keyed(p: Poll) {
    forall fd :: fd in p.conns ==> p.conns[fd].fd == fd
  }

  /** The message a successful readiness event pushes: the read error, the
      frame-check error, or the data. */
  function ReadMessage(parse: HeaderParser, read: Result<Bytes, Error>): (m: Message)
    ensures m.DataMessage? <==> read.Ok? && IsFrame(parse, read.value)
    ensures m.DataMessage? ==> m.data == read.value
    ensures read.Err? ==> m == ErrorMessage(read.error)
    ensures read.Ok? && m.ErrorMessage? ==> Some(m.err) == CheckReceivedMsgBytes(parse, read.value)
  {
    match read
    case Err(e) => ErrorMessage(e)
    case Ok(data) =>
      CheckPassesIffFrame(parse, data);
      match CheckReceivedMsgBytes(parse, data)
      case Some(e) => ErrorMessage(e)
      case None => DataMessage(data)
  }

  function Push(p: Poll, to: PlayerConn, msg: Message): (r: Poll)
    ensures r.delivered == p.delivered + [Delivery(to, msg)]
    ensures r.(delivered := p.delivered) == p
  {
    p.(delivered := p.delivered + [Delivery(to, msg)])
  }

  /** `Close` through loom.WaitClose: the first call clears the change list
      and the registry; later calls do nothing. */
  function Close(p: Poll): (r: Poll)
    ensures r.shut
    ensures !p.shut ==> r.conns == map[] && r.changes == []
    ensures p.shut ==> r == p
    ensures r.delivered == p.delivered && r.closedConns == p.closedConns
  {
    if p.shut then p
    else p.(changes := [], conns := map[], shut := true)
  }

  /** Closing twice is closing once. */
  lemma CloseOnce(p: Poll)
    ensures Close(Close(p)) == Close(p)
  {
  }
}
