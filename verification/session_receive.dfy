/** session.receive.go: the receive loop of a session. Each iteration reads
    one frame from the connection, decodes it into packets and handles them
    in order: a Handshake is answered with the precomputed handshake
    response, a Data packet is decoded into a message and route and forwarded
    to the processing queue, anything else is ignored. Any error ends the
    loop, and the deferred Close then closes the session. */
module SessionReceive {
  import opened Wrappers
  import opened Wire
  import opened Values
  import opened Protocol

  /** receivedItem: what goes to the processing queue. */
  datatype ReceivedItem = ReceivedItem(route: Route, msg: Msg)

  /** The receive side of a session: the processing queue, the bytes written
      back to the connection, and lastAt (Unix seconds). */
  datatype Receiver = Receiver(received: seq<ReceivedItem>, writes: seq<Bytes>, lastAt: int)

  /** What the world does while one packet is handled: the result of writing
      the handshake response, whether the close signal wins the select that
      forwards a data item, and the clock in Unix seconds. */
  datatype PacketEnv = PacketEnv(writeErr: Option<GoError>, closeWins: bool, now: int)

  /** The outcome of onReceivedPacket: the item (meaningful for Data only),
      the bytes written, and the error. */
  datatype Handled = Handled(item: Option<ReceivedItem>, wrote: Option<Bytes>, err: Option<GoError>)

  /** onReceivedDataPacket: message.Decode, then route.Decode of its route. */
  function OnReceivedDataPacket(codecs: Codecs, p: Packet): (r: Result<ReceivedItem, GoError>)
    ensures r.Ok? <==> codecs.messageDecode(p.data).Ok? && codecs.routeDecode(codecs.messageDecode(p.data).value.route).Ok?
    ensures r.Ok? ==>
      && r.value.msg == codecs.messageDecode(p.data).value
      && r.value.route == codecs.routeDecode(r.value.msg.route).value
    ensures codecs.messageDecode(p.data).Err? ==> r == Err(codecs.messageDecode(p.data).error)
  {
    match codecs.messageDecode(p.data)
    case Err(e) => Err(e)
    case Ok(msg) =>
      match codecs.routeDecode(msg.route)
      case Err(e) => Err(e)
      case Ok(rt) => Ok(ReceivedItem(rt, msg))
  }

  /** onReceivedPacket: dispatch on the packet's own type only. */
  function OnReceivedPacket(codecs: Codecs, handshakeResponse: Bytes, writeErr: Option<GoError>, p: Packet): (r: Handled)
    ensures r.wrote.Some? <==> IsType(p, Handshake)
    ensures r.wrote.Some? ==> r.wrote.value == handshakeResponse && r.err == writeErr
    ensures r.item.Some? <==> IsType(p, Data) && OnReceivedDataPacket(codecs, p).Ok?
    ensures IsType(p, Data) ==> r.err == OnReceivedDataPacket(codecs, p).ErrorOrNone()
    ensures !IsType(p, Handshake) && !IsType(p, Data) ==> r == Handled(None, None, None)
  {
    if IsType(p, Handshake) then Handled(None, Some(handshakeResponse), writeErr)
    else if IsType(p, Data) then
      match OnReceivedDataPacket(codecs, p)
      case Err(e) => Handled(None, None, Some(e))
      case Ok(item) => Handled(Some(item), None, None)
    else Handled(None, None, None)
  }

  /** Handling packets ps[0..] of one read, the j-th with env(start + j):
      the receiver afterwards and whether the loop returned. */
  datatype Processed = Processed(rcv: Receiver, exit: bool)

  function ProcessPackets(codecs: Codecs, hs: Bytes, env: nat -> PacketEnv, ps: seq<Packet>, start: nat, s: Receiver): (r: Processed)
    ensures |s.received| <= |r.rcv.received| <= |s.received| + |ps|
    ensures r.rcv.received[..|s.received|] == s.received
    ensures |r.rcv.writes| >= |s.writes| && r.rcv.writes[..|s.writes|] == s.writes
    decreases |ps|
  {
    if ps == [] then Processed(s, false)
    else
      var p := ps[0];
      var e := env(start);
      var h := OnReceivedPacket(codecs, hs, e.writeErr, p);
      var written := if h.wrote.Some? then s.(writes := s.writes + [h.wrote.value]) else s;
      if h.err.Some? then Processed(written, true)
      else if IsType(p, Data) && e.closeWins then Processed(written, true)
      else
        var forwarded := if IsType(p, Data) then written.(received := written.received + [h.item.value]) else written;
        var next := ProcessPackets(codecs, hs, env, ps[1..], start + 1, forwarded.(lastAt := e.now));
        assert next.rcv.received[..|forwarded.received|] == forwarded.received;
        assert next.rcv.writes[..|written.writes|] == written.writes;
        next
  }

  /** The outcome of one iteration of goReceive. */
  datatype Iteration = Continue(rcv: Receiver) | Exit(rcv: Receiver)

  /** One iteration of the loop: `next` is what GetNextMessage returned. */
  function ReceiveStep(codecs: Codecs, hs: Bytes, next: Result<Bytes, GoError>, env: nat -> PacketEnv, s: Receiver): (r: Iteration)
    ensures next.Err? ==> r == Exit(s)
    ensures next.Ok? && codecs.packetDecode(next.value).Err? ==> r == Exit(s)
    ensures next.Ok? && codecs.packetDecode(next.value) == Ok([]) ==> r == Continue(s)
    ensures next.Ok? && codecs.packetDecode(next.value).Ok? ==>
      var pr := ProcessPackets(codecs, hs, env, codecs.packetDecode(next.value).value, 0, s);
      r.rcv == pr.rcv && (r.Exit? <==> pr.exit)
  {
    match next
    case Err(_) => Exit(s)
    case Ok(msg) =>
      match codecs.packetDecode(msg)
      case Err(_) => Exit(s)
      case Ok(packets) =>
        if |packets| < 1 then Continue(s)
        else
          var pr := ProcessPackets(codecs, hs, env, packets, 0, s);
          if pr.exit then Exit(pr.rcv) else Continue(pr.rcv)
  }

  /** A packet that fails stops the read: the packets after it are never
      looked at. */
  lemma {:induction false} FailureStopsTheRest(codecs: Codecs, hs: Bytes, env: nat -> PacketEnv, ps: seq<Packet>, more: seq<Packet>, start: nat, s: Receiver)
    requires ProcessPackets(codecs, hs, env, ps, start, s).exit
    ensures ProcessPackets(codecs, hs, env, ps + more, start, s) == ProcessPackets(codecs, hs, env, ps, start, s)
    decreases |ps|
  {
    assert (ps + more)[0] == ps[0];
    assert (ps + more)[1..] == ps[1..] + more;
    var p := ps[0];
    var e := env(start);
    var h := OnReceivedPacket(codecs, hs, e.writeErr, p);
    if h.err.None? && !(IsType(p, Data) && e.closeWins) {
      var written := if h.wrote.Some? then s.(writes := s.writes + [h.wrote.value]) else s;
      var forwarded := if IsType(p, Data) then written.(received := written.received + [h.item.value]) else written;
      FailureStopsTheRest(codecs, hs, env, ps[1..], more, start + 1, forwarded.(lastAt := e.now));
    }
  }

  /** Packets are handled in order: handling ps ++ more is handling ps and
      then, unless it returned, handling more from where ps left off. */
  lemma {:induction false} ProcessInOrder(codecs: Codecs, hs: Bytes, env: nat -> PacketEnv, ps: seq<Packet>, more: seq<Packet>, start: nat, s: Receiver)
    requires !ProcessPackets(codecs, hs, env, ps, start, s).exit
    ensures ProcessPackets(codecs, hs, env, ps + more, start, s)
         == ProcessPackets(codecs, hs, env, more, start + |ps|, ProcessPackets(codecs, hs, env, ps, start, s).rcv)
    decreases |ps|
  {
    if ps == [] {
      assert ps + more == more;
    } else {
      assert (ps + more)[0] == ps[0];
      assert (ps + more)[1..] == ps[1..] + more;
      var p := ps[0];
      var e := env(start);
      var h := OnReceivedPacket(codecs, hs, e.writeErr, p);
      var written := if h.wrote.Some? then s.(writes := s.writes + [h.wrote.value]) else s;
      var forwarded := if IsType(p, Data) then written.(received := written.received + [h.item.value]) else written;
      ProcessInOrder(codecs, hs, env, ps[1..], more, start + 1, forwarded.(lastAt := e.now));
    }
  }

  /** One packet handled successfully: a Data packet is forwarded as its
      decoded item, a Handshake writes the response once, and lastAt becomes
      that packet's clock reading. */
  lemma OnePacket(codecs: Codecs, hs: Bytes, env: nat -> PacketEnv, p: Packet, start: nat, s: Receiver)
    requires !ProcessPackets(codecs, hs, env, [p], start, s).exit
    ensures var r := ProcessPackets(codecs, hs, env, [p], start, s).rcv;
      && r.lastAt == env(start).now
      && (IsType(p, Data) ==> r.received == s.received + [ReceivedItem(
            codecs.routeDecode(codecs.messageDecode(p.data).value.route).value,
            codecs.messageDecode(p.data).value)])
      && (!IsType(p, Data) ==> r.received == s.received)
      && (IsType(p, Handshake) ==> r.writes == s.writes + [hs])
      && (!IsType(p, Handshake) ==> r.writes == s.writes)
  {
    assert [p][1..] == [];
  }
}
