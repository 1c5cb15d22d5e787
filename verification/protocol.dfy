/** The Pomelo message layer as the session code uses it. The packet codec
    (codec.PacketDecoder/PacketEncoder), the message codec (message.Decode,
    message.Encoder), route.Decode, Route.Short and Route.String are outside this model and
    appear as the function fields of `Codecs`. */
module Protocol {
  import opened Wrappers
  import opened Wire
  import opened Values

  /** message.Type. */
  datatype MsgType = Request | Notify | Response | Push

  /** message.Message: type, request id, route, payload and error flag. */
  datatype Msg = Msg(typ: MsgType, id: nat, route: string, data: Bytes, err: bool)

  /** packet.Packet: the numeric type (any value may arrive) and the body. */
  datatype Packet = Packet(typ: int, data: Bytes)

  /** A decoded route.Route, known only through its text. */
  datatype Route = Route(text: string)

  datatype Codecs = Codecs(
    packetDecode: Bytes -> Result<seq<Packet>, GoError>,
    packetEncode: (PacketType, Bytes) -> Result<Bytes, GoError>,
    messageDecode: Bytes -> Result<Msg, GoError>,
    messageEncode: Msg -> Result<Bytes, GoError>,
    routeDecode: string -> Result<Route, GoError>,
    short: Route -> string,
    routeString: Route -> string)

  predicate IsType(p: Packet, t: PacketType) {
    p.typ == PacketCode(t) as int
  }
}
