/** session.process.go: handling one received item — look the handler up,
    decode its argument, call it through Pcall, serialize what it returned —
    and answering every message that is not a Notify. The handler call is
    the parameter `invoke`; responseMID is not part of this model, so the
    response it would send is returned as a value. */
module SessionProcess {
  import opened Wrappers
  import opened Wire
  import opened Values
  import opened Protocol
  import opened ComponentMethod
  import opened ServiceUtil
  import opened SessionReceive
  import Util

  /** What method.Func.Call does with a handler and its optional argument. */
  type Invoke = (Handler, Option<Value>) -> Util.CallOutcome

  /** unmarshalHandlerArg: raw handlers get the payload itself, typed
      handlers a freshly unmarshalled value, others no argument. */
  function UnmarshalHandlerArg(h: Handler, serializer: Serializer, payload: Bytes): (r: Result<Option<Value>, GoError>)
    ensures h.isRawArg ==> r == Ok(Some(BytesValue(payload)))
    ensures !h.isRawArg && h.argType.None? ==> r == Ok(None)
    ensures !h.isRawArg && h.argType.Some? ==>
      && (r.Ok? <==> serializer.unmarshal(payload, h.argType.value).Ok?)
      && (r.Ok? ==> r.value == Some(serializer.unmarshal(payload, h.argType.value).value))
      && (r.Err? ==> r.error == serializer.unmarshal(payload, h.argType.value).error)
  {
    if h.isRawArg then Ok(Some(BytesValue(payload)))
    else if h.argType.Some? then
      match serializer.unmarshal(payload, h.argType.value)
      case Err(e) => Err(e)
      case Ok(v) => Ok(Some(v))
    else Ok(None)
  }

  /** A handler built from a method is called with exactly the arguments the
      method declares: receiver and context, plus one more iff it has a third
      parameter; a []byte parameter receives the payload untouched. */
  lemma ArgumentMatchesSignature(m: Method, serializer: Serializer, payload: Bytes)
    requires IsHandlerMethod(m)
    requires UnmarshalHandlerArg(NewHandler(m), serializer, payload).Ok?
    ensures UnmarshalHandlerArg(NewHandler(m), serializer, payload).value.Some? <==> |m.ins| == 3
    ensures |m.ins| == 3 && m.ins[2] == BytesType ==>
      UnmarshalHandlerArg(NewHandler(m), serializer, payload).value == Some(BytesValue(payload))
  {
  }

  /** Lookup and argument decoding, the steps before the call. */
  function Prepare(codecs: Codecs, routes: map<string, Handler>, serializer: Serializer, item: ReceivedItem)
    : (r: Result<(Handler, Option<Value>), GoError>)
    ensures GetHandler(codecs, routes, item.route).Err? ==> r == Err(GetHandler(codecs, routes, item.route).error)
    ensures r.Ok? ==>
      && GetHandler(codecs, routes, item.route) == Ok(r.value.0)
      && UnmarshalHandlerArg(r.value.0, serializer, item.msg.data) == Ok(r.value.1)
  {
    match GetHandler(codecs, routes, item.route)
    case Err(e) => Err(e)
    case Ok(h) =>
      match UnmarshalHandlerArg(h, serializer, item.msg.data)
      case Err(e) => Err(e)
      case Ok(arg) => Ok((h, arg))
  }

  /** The steps after the call: an error is returned, a result serialized. */
  function Finish(serializer: Serializer, reply: Util.Reply): (r: Result<Bytes, GoError>)
    ensures reply.err.Some? ==> r == Err(reply.err.value)
    ensures reply.err.None? ==> r == Util.SerializeOrRaw(serializer, reply.rets)
  {
    if reply.err.Some? then Err(reply.err.value) else Util.SerializeOrRaw(serializer, reply.rets)
  }

  /** The outcome of calling the handler that Prepare found, with the
      argument it decoded. */
  function CallOf(codecs: Codecs, routes: map<string, Handler>, serializer: Serializer,
                  invoke: Invoke, item: ReceivedItem): Util.CallOutcome
    requires Prepare(codecs, routes, serializer, item).Ok?
  {
    var (h, arg) := Prepare(codecs, routes, serializer, item).value;
    invoke(h, arg)
  }

  /** processReceivedImpl as written, with Pcall's silent recover: a
      handler that returned nothing and one that panicked both reach
      serializeReturn with nil. */
  function ProcessReceivedImplAsWritten(codecs: Codecs, routes: map<string, Handler>, serializer: Serializer,
                                        invoke: Invoke, item: ReceivedItem): (r: Result<Bytes, GoError>)
    ensures Prepare(codecs, routes, serializer, item).Err? ==> r == Err(Prepare(codecs, routes, serializer, item).error)
    ensures Prepare(codecs, routes, serializer, item).Ok? ==>
      var o := CallOf(codecs, routes, serializer, invoke, item);
      && (o.NoOutputs? || o.Panicked? ==> r == serializer.marshal(NilValue))
      && (o.TwoOutputs? && o.err.Some? ==> r == Err(o.err.value))
      && (o.TwoOutputs? && o.err.None? && o.result == NilValue ==> r == Err(ReplyShouldBeNotNull))
      && (o.TwoOutputs? && o.err.None? && o.result != NilValue ==> r == Util.SerializeOrRaw(serializer, o.result))
  {
    match Prepare(codecs, routes, serializer, item)
    case Err(e) => Err(e)
    case Ok((h, arg)) => Finish(serializer, Util.PcallAsWritten(invoke(h, arg)))
  }

  /** processReceivedImpl with the corrected Pcall: the same pipeline, but a
      recovered panic is reported as the HandlerPanic error. */
  function ProcessReceivedImpl(codecs: Codecs, routes: map<string, Handler>, serializer: Serializer,
                               invoke: Invoke, item: ReceivedItem): (r: Result<Bytes, GoError>)
    ensures Prepare(codecs, routes, serializer, item).Err? ==> r == Err(Prepare(codecs, routes, serializer, item).error)
    ensures Prepare(codecs, routes, serializer, item).Ok? ==>
      var o := CallOf(codecs, routes, serializer, invoke, item);
      && (o.NoOutputs? ==> r == serializer.marshal(NilValue))
      && (o.Panicked? ==> r == Err(Util.HandlerPanic))
      && (o.TwoOutputs? && o.err.Some? ==> r == Err(o.err.value))
      && (o.TwoOutputs? && o.err.None? && o.result == NilValue ==> r == Err(ReplyShouldBeNotNull))
      && (o.TwoOutputs? && o.err.None? && o.result != NilValue ==> r == Util.SerializeOrRaw(serializer, o.result))
  {
    match Prepare(codecs, routes, serializer, item)
    case Err(e) => Err(e)
    case Ok((h, arg)) => Finish(serializer, Util.Pcall(invoke(h, arg)))
  }

  /** The pipeline short-circuits: a failed lookup or argument decode is the
      result, and the handler is never called (any two handler behaviours
      give the same result). */
  lemma ShortCircuitsBeforeCall(codecs: Codecs, routes: map<string, Handler>, serializer: Serializer,
                                invoke1: Invoke, invoke2: Invoke, item: ReceivedItem)
    requires Prepare(codecs, routes, serializer, item).Err?
    ensures ProcessReceivedImpl(codecs, routes, serializer, invoke1, item)
         == ProcessReceivedImpl(codecs, routes, serializer, invoke2, item)
         == Err(Prepare(codecs, routes, serializer, item).error)
  {
  }

  /** The corrected and the written pipeline differ only when the handler
      panics. */
  lemma ImplDiffersOnlyOnPanic(codecs: Codecs, routes: map<string, Handler>, serializer: Serializer,
                               invoke: Invoke, item: ReceivedItem)
    requires Prepare(codecs, routes, serializer, item).Ok?
    requires !invoke(Prepare(codecs, routes, serializer, item).value.0, Prepare(codecs, routes, serializer, item).value.1).Panicked?
    ensures ProcessReceivedImpl(codecs, routes, serializer, invoke, item)
         == ProcessReceivedImplAsWritten(codecs, routes, serializer, invoke, item)
  {
    var (h, arg) := Prepare(codecs, routes, serializer, item).value;
    Util.PcallDiffersOnlyOnPanic(invoke(h, arg));
  }

  /** What responseMID is asked to send: the request id, the payload and the
      error flag. */
  datatype Answer = Answer(id: nat, data: Bytes, err: bool)

  /** processReceived, given the result of processReceivedImpl. */
  function ProcessReceived(serializer: Serializer, msg: Msg, result: Result<Bytes, GoError>): (r: Option<Answer>)
    ensures msg.typ == Notify ==> r.None?
    ensures msg.typ != Notify && result.Ok? ==> r == Some(Answer(msg.id, result.value, false))
    ensures msg.typ != Notify && result.Err? ==>
      && (r.Some? <==> Util.SerializeOrRaw(serializer, ErrorValue(result.error)).Ok?)
      && (r.Some? ==> r.value == Answer(msg.id, Util.SerializeOrRaw(serializer, ErrorValue(result.error)).value, true))
  {
    if msg.typ == Notify then None
    else match result
      case Ok(payload) => Some(Answer(msg.id, payload, false))
      case Err(e) =>
        match Util.SerializeOrRaw(serializer, ErrorValue(e))
        case Err(_) => None
        case Ok(payload1) => Some(Answer(msg.id, payload1, true))
  }

  /** A request whose handler panics, as written: the client is told the
      request succeeded, with the serialized nil as its payload. */
  lemma PanicAnsweredAsSuccess(codecs: Codecs, routes: map<string, Handler>, serializer: Serializer,
                               invoke: Invoke, item: ReceivedItem)
    requires item.msg.typ == Request
    requires Prepare(codecs, routes, serializer, item).Ok?
    requires invoke(Prepare(codecs, routes, serializer, item).value.0, Prepare(codecs, routes, serializer, item).value.1).Panicked?
    requires serializer.marshal(NilValue).Ok?
    ensures ProcessReceived(serializer, item.msg, ProcessReceivedImplAsWritten(codecs, routes, serializer, invoke, item))
         == Some(Answer(item.msg.id, serializer.marshal(NilValue).value, false))
  {
  }

  /** With the corrected Pcall, a success response means the handler ran to
      completion: it was found, its argument decoded, and it returned without
      panicking; a request handler returned a non-nil result and no error,
      and the payload is that result serialized. A handler with no outputs
      is answered with the serialized nil. */
  lemma SuccessMeansHandlerReturned(codecs: Codecs, routes: map<string, Handler>, serializer: Serializer,
                                    invoke: Invoke, item: ReceivedItem)
    requires ProcessReceived(serializer, item.msg, ProcessReceivedImpl(codecs, routes, serializer, invoke, item)).Some?
    requires !ProcessReceived(serializer, item.msg, ProcessReceivedImpl(codecs, routes, serializer, invoke, item)).value.err
    ensures Prepare(codecs, routes, serializer, item).Ok?
    ensures var o := CallOf(codecs, routes, serializer, invoke, item);
      var answer := ProcessReceived(serializer, item.msg, ProcessReceivedImpl(codecs, routes, serializer, invoke, item)).value;
      && !o.Panicked?
      && (o.TwoOutputs? ==> o.err.None? && o.result != NilValue
                            && Util.SerializeOrRaw(serializer, o.result) == Ok(answer.data))
      && (o.NoOutputs? ==> serializer.marshal(NilValue) == Ok(answer.data))
  {
  }

  /** With the corrected Pcall, a panicking request handler is answered with
      the serialized panic error, flagged as an error. */
  lemma PanicAnsweredAsError(codecs: Codecs, routes: map<string, Handler>, serializer: Serializer,
                             invoke: Invoke, item: ReceivedItem)
    requires item.msg.typ == Request
    requires Prepare(codecs, routes, serializer, item).Ok?
    requires invoke(Prepare(codecs, routes, serializer, item).value.0, Prepare(codecs, routes, serializer, item).value.1).Panicked?
    requires serializer.marshal(ErrorValue(Util.HandlerPanic)).Ok?
    ensures ProcessReceived(serializer, item.msg, ProcessReceivedImpl(codecs, routes, serializer, invoke, item))
         == Some(Answer(item.msg.id, serializer.marshal(ErrorValue(Util.HandlerPanic)).value, true))
  {
  }
}
