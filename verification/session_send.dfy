/** session.send.go: the send side of a session. goSend writes queued items
    and heartbeats and closes the session on a heartbeat timeout or a failed
    write; Push, sendMayError, sendMessage and packetEncodeMessage build the
    Data packets that go onto the sending queue. */
module SessionSend {
  import opened Wrappers
  import opened Wire
  import opened Values
  import opened Protocol
  import Util

  const NanosPerSecond: int := 1_000_000_000

  /** time.Now().Add(-2 * heartbeatTimeout).Unix(): Unix seconds are rounded
      down, also before 1970. */
  function Deadline(nowNanos: int, timeoutNanos: int): (d: int)
    ensures d * NanosPerSecond <= nowNanos - 2 * timeoutNanos < (d + 1) * NanosPerSecond
  {
    (nowNanos - 2 * timeoutNanos) / NanosPerSecond
  }

  /** The tick's test: the last packet arrived before the deadline second. */
  predicate TimedOut(lastAt: int, nowNanos: int, timeoutNanos: int) {
    lastAt < Deadline(nowNanos, timeoutNanos)
  }

  /** A session times out exactly when the whole second lastAt ended at least
      two heartbeat timeouts ago. */
  lemma TimedOutMeans(lastAt: int, nowNanos: int, timeoutNanos: int)
    ensures TimedOut(lastAt, nowNanos, timeoutNanos)
        <==> (lastAt + 1) * NanosPerSecond + 2 * timeoutNanos <= nowNanos
  {
    var d := Deadline(nowNanos, timeoutNanos);
    if lastAt < d {
      assert (lastAt + 1) * NanosPerSecond <= d * NanosPerSecond;
    } else {
      assert (d + 1) * NanosPerSecond <= (lastAt + 1) * NanosPerSecond;
    }
  }

  /** sendingItem: the packet bytes and whether an error response is in it. */
  datatype SendingItem = SendingItem(data: Bytes, pendingErr: bool)

  /** What goSend's select picked, with the result of the write it makes. */
  datatype SendEvent =
    | Tick(nowNanos: int, lastAt: int, writeFails: bool)
    | Dequeue(item: SendingItem, writeFails: bool)
    | CloseSignal

  /** One case of the select: the bytes written, if any, and whether goSend
      returned (and so closed the session). */
  datatype SendStep = SendStep(write: Option<Bytes>, exit: bool)

  function OnSendEvent(timeoutNanos: int, heartbeat: Bytes, e: SendEvent): (r: SendStep)
    ensures e.Tick? ==> (r.write.None? <==> TimedOut(e.lastAt, e.nowNanos, timeoutNanos))
    ensures e.Tick? && r.write.Some? ==> r.write.value == heartbeat
    ensures e.Dequeue? ==> r.write == Some(e.item.data)
    ensures r.exit <==> r.write.None? || (!e.CloseSignal? && e.writeFails)
  {
    match e
    case Tick(now, lastAt, fails) =>
      if TimedOut(lastAt, now, timeoutNanos) then SendStep(None, true)
      else SendStep(Some(heartbeat), fails)
    case Dequeue(item, fails) => SendStep(Some(item.data), fails)
    case CloseSignal => SendStep(None, true)
  }

  /** goSend's select loop over a schedule of select outcomes: the bytes written, whether
      the loop returned and how many events it took. */
  datatype SendRun = SendRun(writes: seq<Bytes>, exited: bool, consumed: nat)

  function GoSend(timeoutNanos: int, heartbeat: Bytes, events: seq<SendEvent>): (r: SendRun)
    ensures r.consumed <= |events| && |r.writes| <= r.consumed
    ensures !r.exited ==> r.consumed == |events|
    decreases |events|
  {
    if events == [] then SendRun([], false, 0)
    else
      var s := OnSendEvent(timeoutNanos, heartbeat, events[0]);
      var w := if s.write.Some? then [s.write.value] else [];
      if s.exit then SendRun(w, true, 1)
      else
        var t := GoSend(timeoutNanos, heartbeat, events[1..]);
        SendRun(w + t.writes, t.exited, t.consumed + 1)
  }

  /** goSend from the top: the heartbeat ticker is made before the loop.
      Later.NewTicker is taken to hand its interval to time.NewTicker, which
      panics for an interval that is not positive, so with such a timeout
      goSend panics (its deferred Close still runs) before any select. */
  function GoSendStart(timeoutNanos: int, heartbeat: Bytes, events: seq<SendEvent>): (r: Result<SendRun, Panic>)
    ensures r.Err? <==> timeoutNanos <= 0
    ensures r.Err? ==> r.error == PanicNonPositiveInterval
    ensures r.Ok? ==> r.value == GoSend(timeoutNanos, heartbeat, events)
  {
    if timeoutNanos <= 0 then Err(PanicNonPositiveInterval)
    else Ok(GoSend(timeoutNanos, heartbeat, events))
  }

  function ItemData(events: seq<SendEvent>): (r: seq<Bytes>)
    requires forall i :: 0 <= i < |events| ==> events[i].Dequeue?
    ensures |r| == |events|
  {
    if events == [] then [] else [events[0].item.data] + ItemData(events[1..])
  }

  /** Queued items are written in queue order, each exactly once. */
  lemma {:induction false} ItemsWrittenInOrder(timeoutNanos: int, heartbeat: Bytes, events: seq<SendEvent>)
    requires forall i :: 0 <= i < |events| ==> events[i].Dequeue? && !events[i].writeFails
    ensures GoSend(timeoutNanos, heartbeat, events) == SendRun(ItemData(events), false, |events|)
    decreases |events|
  {
    if events != [] {
      ItemsWrittenInOrder(timeoutNanos, heartbeat, events[1..]);
    }
  }

  /** Once goSend has returned, nothing later is written. */
  lemma {:induction false} ExitStopsWriting(timeoutNanos: int, heartbeat: Bytes, events: seq<SendEvent>, more: seq<SendEvent>)
    requires GoSend(timeoutNanos, heartbeat, events).exited
    ensures GoSend(timeoutNanos, heartbeat, events + more) == GoSend(timeoutNanos, heartbeat, events)
    decreases |events|
  {
    assert (events + more)[0] == events[0];
    assert (events + more)[1..] == events[1..] + more;
    if !OnSendEvent(timeoutNanos, heartbeat, events[0]).exit {
      ExitStopsWriting(timeoutNanos, heartbeat, events[1..], more);
    }
  }

  /** packetEncodeMessage: the message encoder, then a Data packet around it. */
  function PacketEncodeMessage(codecs: Codecs, msg: Msg): (r: Result<Bytes, GoError>)
    ensures codecs.messageEncode(msg).Err? ==> r == Err(codecs.messageEncode(msg).error)
    ensures codecs.messageEncode(msg).Ok? ==> r == codecs.packetEncode(Data, codecs.messageEncode(msg).value)
  {
    match codecs.messageEncode(msg)
    case Err(e) => Err(e)
    case Ok(data) => codecs.packetEncode(Data, data)
  }

  /** The result of sendMessage/sendMayError/Push: the item put on the
      sending queue, if any, and the error returned. */
  datatype Sent = Sent(queued: Option<SendingItem>, err: Option<GoError>)

  /** sendMessage. `closeWins` is the select's choice when the close signal
      has fired; then nothing is queued and nil is returned. */
  function SendMessage(codecs: Codecs, msg: Msg, closeWins: bool): (r: Sent)
    ensures r.err == PacketEncodeMessage(codecs, msg).ErrorOrNone()
    ensures r.queued.Some? <==> PacketEncodeMessage(codecs, msg).Ok? && !closeWins
    ensures r.queued.Some? ==> r.queued.value == SendingItem(PacketEncodeMessage(codecs, msg).value, msg.err)
  {
    match PacketEncodeMessage(codecs, msg)
    case Err(e) => Sent(None, Some(e))
    case Ok(p) => if closeWins then Sent(None, None) else Sent(Some(SendingItem(p, msg.err)), None)
  }

  /** sendMayError: with an error, the message is flagged and its payload
      becomes the serialized error; if that fails, nothing is sent. */
  function SendMayError(serializer: Serializer, codecs: Codecs, msg: Msg, err: Option<GoError>, closeWins: bool): (r: Sent)
    ensures err.None? ==> r == SendMessage(codecs, msg, closeWins)
    ensures err.Some? && Util.SerializeOrRaw(serializer, ErrorValue(err.value)).Err? ==>
      r == Sent(None, Some(Util.SerializeOrRaw(serializer, ErrorValue(err.value)).error))
    ensures err.Some? && Util.SerializeOrRaw(serializer, ErrorValue(err.value)).Ok? ==>
      r == SendMessage(codecs, msg.(err := true, data := Util.SerializeOrRaw(serializer, ErrorValue(err.value)).value), closeWins)
  {
    if err.None? then SendMessage(codecs, msg, closeWins)
    else
      match Util.SerializeOrRaw(serializer, ErrorValue(err.value))
      case Err(e1) => Sent(None, Some(e1))
      case Ok(data) => SendMessage(codecs, msg.(err := true, data := data), closeWins)
  }

  /** The payload SerializeOrRaw leaves in Push's message: nil on failure. */
  function PushPayload(serializer: Serializer, v: Value): (b: Bytes)
    ensures Util.SerializeOrRaw(serializer, v).Ok? ==> b == Util.SerializeOrRaw(serializer, v).value
    ensures Util.SerializeOrRaw(serializer, v).Err? ==> b == []
  {
    Util.SerializeOrRaw(serializer, v).GetOr([])
  }

  /** Push(route, v): a Push message with the route and payload. */
  function Push(serializer: Serializer, codecs: Codecs, route: string, v: Value, closeWins: bool): Sent
  {
    SendMayError(serializer, codecs, Msg(MsgType.Push, 0, route, PushPayload(serializer, v), false),
                 Util.SerializeOrRaw(serializer, v).ErrorOrNone(), closeWins)
  }

  /** The encoders invert the decoders the receive side uses. */
  ghost predicate RoundTrips(codecs: Codecs) {
    && (forall m {:trigger codecs.messageEncode(m)} :: codecs.messageEncode(m).Ok? ==>
          codecs.messageDecode(codecs.messageEncode(m).value) == Ok(m))
    && (forall t, b {:trigger codecs.packetEncode(t, b)} :: codecs.packetEncode(t, b).Ok? ==>
          codecs.packetDecode(codecs.packetEncode(t, b).value) == Ok([Packet(PacketCode(t) as int, b)]))
  }

  /** What sendMessage queues decodes, on the receiving side, to one Data
      packet carrying exactly the message. */
  lemma SentMessageDecodes(codecs: Codecs, msg: Msg, closeWins: bool)
    requires RoundTrips(codecs)
    requires SendMessage(codecs, msg, closeWins).queued.Some?
    ensures var item := SendMessage(codecs, msg, closeWins).queued.value;
      && codecs.packetDecode(item.data).Ok?
      && |codecs.packetDecode(item.data).value| == 1
      && IsType(codecs.packetDecode(item.data).value[0], Data)
      && codecs.messageDecode(codecs.packetDecode(item.data).value[0].data) == Ok(msg)
  {
    var data := codecs.messageEncode(msg).value;
    assert codecs.packetEncode(Data, data).Ok?;
  }

  /** A successful Push reaches the peer as a Push message with the route
      and the raw or serialized value, without the error flag. */
  lemma PushDecodes(serializer: Serializer, codecs: Codecs, route: string, v: Value, closeWins: bool)
    requires RoundTrips(codecs)
    requires Util.SerializeOrRaw(serializer, v).Ok?
    requires Push(serializer, codecs, route, v, closeWins).queued.Some?
    ensures var item := Push(serializer, codecs, route, v, closeWins).queued.value;
      && !item.pendingErr
      && codecs.packetDecode(item.data).Ok? && |codecs.packetDecode(item.data).value| == 1
      && codecs.messageDecode(codecs.packetDecode(item.data).value[0].data)
         == Ok(Msg(MsgType.Push, 0, route, Util.SerializeOrRaw(serializer, v).value, false))
  {
    SentMessageDecodes(codecs, Msg(MsgType.Push, 0, route, Util.SerializeOrRaw(serializer, v).value, false), closeWins);
  }

  /** A message sent with an error reaches the peer flagged as an error and
      carrying the serialized error in place of its payload. */
  lemma ErrorSendDecodes(serializer: Serializer, codecs: Codecs, msg: Msg, err: GoError, closeWins: bool)
    requires RoundTrips(codecs)
    requires SendMayError(serializer, codecs, msg, Some(err), closeWins).queued.Some?
    ensures Util.SerializeOrRaw(serializer, ErrorValue(err)).Ok?
    ensures var item := SendMayError(serializer, codecs, msg, Some(err), closeWins).queued.value;
      && item.pendingErr
      && codecs.packetDecode(item.data).Ok? && |codecs.packetDecode(item.data).value| == 1
      && codecs.messageDecode(codecs.packetDecode(item.data).value[0].data)
         == Ok(msg.(err := true, data := Util.SerializeOrRaw(serializer, ErrorValue(err)).value))
  {
    SentMessageDecodes(codecs, msg.(err := true, data := Util.SerializeOrRaw(serializer, ErrorValue(err)).value), closeWins);
  }
}
