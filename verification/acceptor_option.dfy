/** epoll/acceptor_option.go: the acceptor's three sizes and their setters.
    A setter takes only a positive size and touches only its own field. */
module AcceptorOption {
  import opened Values

  datatype AcceptorOptions = AcceptorOptions(connChanSize: int64, receivedChanSize: int64, pollBufferSize: int64)

  /** One AcceptorOption closure. */
  datatype Setter =
    | WithConnChanSize(size: int64)
    | WithReceivedChanSize(size: int64)
    | WithPollBufferSize(size: int64)

  function Apply(o: Setter, opts: AcceptorOptions): AcceptorOptions {
    match o
    case WithConnChanSize(n) => if n > 0 then opts.(connChanSize := n) else opts
    case WithReceivedChanSize(n) => if n > 0 then opts.(receivedChanSize := n) else opts
    case WithPollBufferSize(n) => if n > 0 then opts.(pollBufferSize := n) else opts
  }

  /** The options after applying the setters in order. */
  function ApplyAll(opts: AcceptorOptions, setters: seq<Setter>): AcceptorOptions
    decreases |setters|
  {
    if setters == [] then opts else ApplyAll(Apply(setters[0], opts), setters[1..])
  }

  /** A setter's field after it runs: its size when positive, the old value
      otherwise; the other two fields are unchanged. */
  lemma SetterTouchesOwnField(o: Setter, opts: AcceptorOptions)
    ensures var r := Apply(o, opts);
      && r.connChanSize == (if o.WithConnChanSize? && o.size > 0 then o.size else opts.connChanSize)
      && r.receivedChanSize == (if o.WithReceivedChanSize? && o.size > 0 then o.size else opts.receivedChanSize)
      && r.pollBufferSize == (if o.WithPollBufferSize? && o.size > 0 then o.size else opts.pollBufferSize)
  {
  }

  predicate AllPositive(opts: AcceptorOptions) {
    opts.connChanSize > 0 && opts.receivedChanSize > 0 && opts.pollBufferSize > 0
  }

  /** No sequence of setters can make a positive size non-positive. */
  lemma {:induction false} SettersKeepPositive(opts: AcceptorOptions, setters: seq<Setter>)
    requires AllPositive(opts)
    ensures AllPositive(ApplyAll(opts, setters))
    decreases |setters|
  {
    if setters != [] {
      SettersKeepPositive(Apply(setters[0], opts), setters[1..]);
    }
  }
}
