/** Go's dynamic values as the session and handler layers see them: what an
    `interface{}` may hold, `error` values, the reflect type descriptors the
    handler registry inspects, and the serializer (serialize.Serializer,
    which this model does not define) as a pair of functions. */
module Values {
  import opened Wrappers
  import opened Wire

  type int32 = x: int | -0x8000_0000 <= x < 0x8000_0000
  type uint32 = x: int | 0 <= x < 0x1_0000_0000
  type int64 = x: int | -0x8000_0000_0000_0000 <= x < 0x8000_0000_0000_0000
  type uint64 = x: int | 0 <= x < 0x1_0000_0000_0000_0000

  /** An `error`. `AppError` is the road `*Error` with its Code and Message;
      `Failure` is any other error, with the text its Error() returns;
      `ReplyShouldBeNotNull` is constants.ErrReplyShouldBeNotNull. */
  datatype GoError =
    | AppError(code: string, message: string)
    | Failure(text: string)
    | ReplyShouldBeNotNull

  /** The content of an `interface{}`. Each Go integer type is its own case,
      so a typed getter can tell an int32 from an int64 holding the same
      number. Floats are kept as opaque bit patterns. */
  datatype Value =
    | NilValue
    | BytesValue(bytes: Bytes)
    | Int32Value(i32: int32)
    | UInt32Value(u32: uint32)
    | Int64Value(i64: int64)
    | UInt64Value(u64: uint64)
    | IntValue(i: int64)
    | Float32Value(f32bits: uint32)
    | Float64Value(f64bits: uint64)
    | BoolValue(b: bool)
    | StringValue(s: string)
    | ErrorValue(err: GoError)
    | PointerValue(target: nat)

  /** A reflect.Type, only as finely as the handler registry looks at it.
      `PointerType` is every type whose Kind() is reflect.Ptr: an unnamed
      `*T` as well as a named pointer type (`type P *T`), told apart by
      `name`. `Named` covers every other type. In both, `isContext` says
      whether the type's method set implements context.Context, as a
      pointer to a type with the context methods does. */
  datatype Type =
    | BytesType
    | ErrorType
    | ContextType
    | PointerType(name: string, isContext: bool)
    | Named(name: string, isContext: bool)

  /** reflect.Type.Implements(typeOfContext). */
  predicate ImplementsContext(t: Type) {
    t.ContextType? || (t.PointerType? && t.isContext) || (t.Named? && t.isContext)
  }

  /** serialize.Serializer: Marshal, and Unmarshal into a fresh value of a
      handler's argument type, and GetName. */
  datatype Serializer = Serializer(
    marshal: Value -> Result<Bytes, GoError>,
    unmarshal: (Bytes, Type) -> Result<Value, GoError>,
    name: string)
}
