/** epoll/acceptor_args.go: checkAcceptorArgs replaces every non-positive
    length by its default. */
module AcceptorArgs {
  import opened Values

  datatype AcceptorArgs = AcceptorArgs(connChanLen: int64, receivedChanLen: int64, pollBufferSize: int64)

  const DefaultConnChanLen: int64 := 16
  const DefaultReceivedChanLen: int64 := 8
  const DefaultPollBufferSize: int64 := 1024

  function CheckAcceptorArgs(args: AcceptorArgs): (r: AcceptorArgs)
    ensures r.connChanLen == (if args.connChanLen > 0 then args.connChanLen else DefaultConnChanLen)
    ensures r.receivedChanLen == (if args.receivedChanLen > 0 then args.receivedChanLen else DefaultReceivedChanLen)
    ensures r.pollBufferSize == (if args.pollBufferSize > 0 then args.pollBufferSize else DefaultPollBufferSize)
  {
    var a1 := if args.connChanLen <= 0 then args.(connChanLen := 16) else args;
    var a2 := if a1.receivedChanLen <= 0 then a1.(receivedChanLen := 8) else a1;
    if a2.pollBufferSize <= 0 then a2.(pollBufferSize := 1024) else a2
  }

  /** Afterwards every length is positive, lengths that were positive are
      kept, and checking again changes nothing. */
  lemma CheckedArgsArePositive(args: AcceptorArgs)
    ensures var r := CheckAcceptorArgs(args);
      && r.connChanLen > 0 && r.receivedChanLen > 0 && r.pollBufferSize > 0
      && CheckAcceptorArgs(r) == r
      && (args.connChanLen > 0 && args.receivedChanLen > 0 && args.pollBufferSize > 0 ==> r == args)
  {
  }
}
