/** common_session_args.go: the two packets every session shares, built
    once. The handshake reply carries the JSON handshake data, deflated when
    compression is on and deflating makes it strictly shorter; the heartbeat
    is an empty Heartbeat packet. A failure at any step is a panic, written
    here as an Err carrying the error panicked with. */
module CommonSessionArgs {
  import opened Wrappers
  import opened Wire
  import opened Values
  import opened Protocol
  import SessionSend

  /** The handshake data: code 200 and, under "sys", the heartbeat timeout and
      the serializer's name. The route dictionary (message.GetDictionary) is
      not part of this model. */
  datatype HandshakeData = HandshakeData(code: int, heartbeatNanos: int, serializerName: string)

  const HandshakeCode := 200

  /** json.Marshal of the handshake data and compression.DeflateData, both
      outside this model. */
  type Marshal = HandshakeData -> Result<Bytes, GoError>
  type Deflate = Bytes -> Result<Bytes, GoError>

  /** The handshake payload: the deflated form when compression is on and it
      is strictly shorter, else the JSON itself. */
  function ChoosePayload(data: Bytes, compression: bool, deflate: Deflate): (r: Result<Bytes, GoError>)
    ensures r.Err? <==> compression && deflate(data).Err?
    ensures r.Err? ==> r.error == deflate(data).error
    ensures r.Ok? ==> |r.value| <= |data|
  {
    if !compression then Ok(data)
    else
      match deflate(data)
      case Err(e) => Err(e)
      case Ok(compressed) => Ok(if |compressed| < |data| then compressed else data)
  }

  /** The payload is the JSON unless its deflated form is chosen, which
      happens exactly when compression is on and deflating shortens it. */
  lemma PayloadIsSmallerForm(data: Bytes, compression: bool, deflate: Deflate)
    requires ChoosePayload(data, compression, deflate).Ok?
    ensures var p := ChoosePayload(data, compression, deflate).value;
      && (p != data ==> compression && deflate(data) == Ok(p))
      && (compression && |deflate(data).value| < |data| ==> p == deflate(data).value)
      && (!compression ==> p == data)
  {
  }

  /** The handshake data for a session's heartbeat timeout and serializer. */
  function MakeHandshakeData(heartbeatNanos: int, serializer: Serializer): HandshakeData {
    HandshakeData(HandshakeCode, heartbeatNanos, serializer.name)
  }

  /** encodeHeartbeatData. */
  function EncodeHeartbeatData(codecs: Codecs): Result<Bytes, GoError> {
    codecs.packetEncode(Heartbeat, [])
  }

  /** encodeHandshakeData(dataCompression). */
  function EncodeHandshakeData(codecs: Codecs, marshal: Marshal, deflate: Deflate,
                               heartbeatNanos: int, serializer: Serializer, compression: bool): (r: Result<Bytes, GoError>)
    ensures marshal(MakeHandshakeData(heartbeatNanos, serializer)).Err? ==> r.Err?
  {
    match marshal(MakeHandshakeData(heartbeatNanos, serializer))
    case Err(e) => Err(e)
    case Ok(data) =>
      match ChoosePayload(data, compression, deflate)
      case Err(e) => Err(e)
      case Ok(payload) => codecs.packetEncode(Handshake, payload)
  }

  /** Both packets, when built, decode back to one packet each: the
      heartbeat with an empty body, and the handshake reply carrying the
      marshalled handshake data or its shorter deflated form. */
  lemma SharedPacketsDecode(codecs: Codecs, marshal: Marshal, deflate: Deflate,
                            heartbeatNanos: int, serializer: Serializer, compression: bool)
    requires SessionSend.RoundTrips(codecs)
    ensures EncodeHeartbeatData(codecs).Ok? ==>
      codecs.packetDecode(EncodeHeartbeatData(codecs).value) == Ok([Packet(PacketCode(Heartbeat) as int, [])])
    ensures var r := EncodeHandshakeData(codecs, marshal, deflate, heartbeatNanos, serializer, compression);
      r.Ok? ==>
        && var data := marshal(MakeHandshakeData(heartbeatNanos, serializer)).value;
        && codecs.packetDecode(r.value) == Ok([Packet(PacketCode(Handshake) as int, ChoosePayload(data, compression, deflate).value)])
        && |ChoosePayload(data, compression, deflate).value| <= |data|
  {
    var r := EncodeHandshakeData(codecs, marshal, deflate, heartbeatNanos, serializer, compression);
    if r.Ok? {
      var data := marshal(MakeHandshakeData(heartbeatNanos, serializer)).value;
      assert codecs.packetEncode(Handshake, ChoosePayload(data, compression, deflate).value).Ok?;
    }
    if EncodeHeartbeatData(codecs).Ok? {
      assert codecs.packetEncode(Heartbeat, []).Ok?;
    }
  }
}
