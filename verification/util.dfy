/** util/util.go: Pcall, which calls a handler through reflection and
    classifies what it returned, and SerializeOrRaw. */
module Util {
  import opened Wrappers
  import opened Wire
  import opened Values

  /** What method.Func.Call did: a notify handler returns nothing, a request
      handler returns a result and an error, and either may panic.
      `NilValue` as a result stands for a nil pointer or nil slice. */
  datatype CallOutcome =
    | NoOutputs
    | TwoOutputs(result: Value, err: Option<GoError>)
    | Panicked

  /** Pcall's named results (rets, err). */
  datatype Reply = Reply(rets: Value, err: Option<GoError>)

  /** Pcall as written: the deferred recover only logs, so a panicking
      handler leaves both named results nil. */
  function PcallAsWritten(o: CallOutcome): (r: Reply)
    ensures r.err.Some? ==> r.rets == NilValue
    ensures r.rets != NilValue ==> o.TwoOutputs? && o.err.None? && r.rets == o.result
    ensures o.TwoOutputs? && o.err.Some? ==> r.err == o.err
    ensures o.TwoOutputs? && o.err.None? && o.result == NilValue ==> r.err == Some(ReplyShouldBeNotNull)
    ensures r == Reply(NilValue, None) <==> o.NoOutputs? || o.Panicked?
  {
    match o
    case NoOutputs => Reply(NilValue, None)
    case Panicked => Reply(NilValue, None)
    case TwoOutputs(result, err) =>
      if err.Some? then Reply(NilValue, err)
      else if result != NilValue then Reply(result, None)
      else Reply(NilValue, Some(ReplyShouldBeNotNull))
  }

  /** The error a recovered handler panic is reported as. */
  const HandlerPanic: GoError := Failure("rpc call internal error")

  /** Pcall with the recovered panic reported as an error, as the rest of the
      session code expects: (nil, nil) then means exactly "a notify handler
      returned". */
  function Pcall(o: CallOutcome): (r: Reply)
    ensures r.err.Some? ==> r.rets == NilValue
    ensures r.rets != NilValue ==> o.TwoOutputs? && o.err.None? && r.rets == o.result
    ensures o.TwoOutputs? && o.err.Some? ==> r.err == o.err
    ensures o.TwoOutputs? && o.err.None? && o.result == NilValue ==> r.err == Some(ReplyShouldBeNotNull)
    ensures o.Panicked? ==> r.err == Some(HandlerPanic)
    ensures r == Reply(NilValue, None) <==> o.NoOutputs?
  {
    if o.Panicked? then Reply(NilValue, Some(HandlerPanic)) else PcallAsWritten(o)
  }

  /** The two differ only on a panic. */
  lemma PcallDiffersOnlyOnPanic(o: CallOutcome)
    ensures Pcall(o) != PcallAsWritten(o) <==> o.Panicked?
  {
  }

  /** SerializeOrRaw(serializer, v): a []byte is passed through untouched,
      anything else goes to Marshal. */
  function SerializeOrRaw(serializer: Serializer, v: Value): (r: Result<Bytes, GoError>)
    ensures v.BytesValue? ==> r == Ok(v.bytes)
    ensures !v.BytesValue? ==> r == serializer.marshal(v)
  {
    if v.BytesValue? then Ok(v.bytes) else serializer.marshal(v)
  }

  /** Raw bytes never reach the serializer: any two serializers agree on them. */
  lemma RawBytesIgnoreSerializer(s1: Serializer, s2: Serializer, b: Bytes)
    ensures SerializeOrRaw(s1, BytesValue(b)) == SerializeOrRaw(s2, BytesValue(b)) == Ok(b)
  {
  }
}
