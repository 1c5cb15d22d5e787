/** app_option.go: the App's options and their setters. Most setters only
    take a positive value (or a non-nil logger); each touches one field. */
module AppOption {
  import opened Wrappers
  import opened Values

  /** appOptions. The logger is known by an identity; None is nil. */
  datatype AppOptions = AppOptions(
    heartbeatTimeout: int64,
    dataCompression: bool,
    logger: Option<nat>,
    sendingChanSize: int64,
    taskQueueSize: int64,
    rateLimitBySecond: int64)

  /** One AppOption closure. */
  datatype Setter =
    | WithHeartbeatTimeout(timeout: int64)
    | WithDataCompression(compression: bool)
    | WithLogger(logger: Option<nat>)
    | WithSessionSendingChanSize(size: int64)
    | WithSessionTaskQueueSize(size: int64)
    | WithSessionRateLimitBySecond(limit: int64)

  function Apply(o: Setter, opts: AppOptions): AppOptions {
    match o
    case WithHeartbeatTimeout(t) => if t > 0 then opts.(heartbeatTimeout := t) else opts
    case WithDataCompression(c) => opts.(dataCompression := c)
    case WithLogger(l) => if l.Some? then opts.(logger := l) else opts
    case WithSessionSendingChanSize(n) => if n > 0 then opts.(sendingChanSize := n) else opts
    case WithSessionTaskQueueSize(n) => if n > 0 then opts.(taskQueueSize := n) else opts
    case WithSessionRateLimitBySecond(n) => if n > 0 then opts.(rateLimitBySecond := n) else opts
  }

  datatype Field = HeartbeatTimeout | DataCompression | Logger | SendingChanSize | TaskQueueSize | RateLimitBySecond

  /** A field's value, with the bool and the logger encoded as numbers. */
  function Get(opts: AppOptions, f: Field): int {
    match f
    case HeartbeatTimeout => opts.heartbeatTimeout
    case DataCompression => if opts.dataCompression then 1 else 0
    case Logger => if opts.logger.Some? then opts.logger.value + 1 else 0
    case SendingChanSize => opts.sendingChanSize
    case TaskQueueSize => opts.taskQueueSize
    case RateLimitBySecond => opts.rateLimitBySecond
  }

  /** The field a setter is about. */
  function Owner(o: Setter): Field {
    match o
    case WithHeartbeatTimeout(_) => HeartbeatTimeout
    case WithDataCompression(_) => DataCompression
    case WithLogger(_) => Logger
    case WithSessionSendingChanSize(_) => SendingChanSize
    case WithSessionTaskQueueSize(_) => TaskQueueSize
    case WithSessionRateLimitBySecond(_) => RateLimitBySecond
  }

  /** Whether a setter's argument is taken: positive numbers, a non-nil
      logger, and any compression flag. */
  predicate Accepts(o: Setter) {
    match o
    case WithHeartbeatTimeout(t) => t > 0
    case WithDataCompression(_) => true
    case WithLogger(l) => l.Some?
    case WithSessionSendingChanSize(n) => n > 0
    case WithSessionTaskQueueSize(n) => n > 0
    case WithSessionRateLimitBySecond(n) => n > 0
  }

  /** A setter's argument, encoded as Get encodes its field. */
  function Argument(o: Setter): int {
    match o
    case WithHeartbeatTimeout(t) => t
    case WithDataCompression(c) => if c then 1 else 0
    case WithLogger(l) => if l.Some? then l.value + 1 else 0
    case WithSessionSendingChanSize(n) => n
    case WithSessionTaskQueueSize(n) => n
    case WithSessionRateLimitBySecond(n) => n
  }

  /** Each setter changes only its own field, and that one only when its
      argument is accepted; a rejected argument changes nothing. */
  lemma SetterTouchesOwnField(o: Setter, opts: AppOptions)
    ensures forall f :: f != Owner(o) ==> Get(Apply(o, opts), f) == Get(opts, f)
    ensures !Accepts(o) ==> Apply(o, opts) == opts
    ensures Accepts(o) ==> Get(Apply(o, opts), Owner(o)) == Argument(o)
  {
  }

  /** Setting twice is setting once. */
  lemma SetterIdempotent(o: Setter, opts: AppOptions)
    ensures Apply(o, Apply(o, opts)) == Apply(o, opts)
  {
  }

  /** Setters of different fields can be applied in either order. */
  lemma SettersCommute(o1: Setter, o2: Setter, opts: AppOptions)
    requires Owner(o1) != Owner(o2)
    ensures Apply(o1, Apply(o2, opts)) == Apply(o2, Apply(o1, opts))
  {
  }
}
