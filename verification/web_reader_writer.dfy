/** epoll/web_reader_writer.go: the input side of a WebSocket connection over
    gobwas/ws — an input buffer fed by onReceiveData, and a backup buffer that
    TakeSnapshot fills and Rollback copies back. Both are bytes.Buffers; a
    write that panics with ErrTooLarge is the `Err` outcome. */
module WebReaderWriter {
  import opened Wrappers
  import opened Wire
  import opened Buffer

  datatype WebReaderWriter = WebReaderWriter(input: Buffer, backup: Buffer)

  predicate Good(w: WebReaderWriter) {
    Valid(w.input) && Valid(w.backup)
  }

  /** onReceiveData(buff): append buff to the input. */
  function OnReceiveData(w: WebReaderWriter, buff: Bytes): (r: Result<WebReaderWriter, Panic>)
    requires Good(w)
    ensures r.Ok? ==> Good(r.value) && Unread(r.value.input) == Unread(w.input) + buff
    ensures r.Ok? ==> r.value.backup == w.backup
    ensures r.Err? ==> r.error == PanicTooLarge
  {
    match Write(w.input, buff)
    case Err(e) => Err(e)
    case Ok((input, _)) => Ok(w.(input := input))
  }

  /** ReaderSize(): the number of unread input bytes. */
  function ReaderSize(w: WebReaderWriter): (n: int)
    requires Good(w)
    ensures n == |Unread(w.input)|
  {
    Len(w.input)
  }

  /** TakeSnapshot(): reset the backup and copy the unread input into it. */
  function TakeSnapshot(w: WebReaderWriter): (r: Result<WebReaderWriter, Panic>)
    requires Good(w)
    ensures r.Ok? ==> Good(r.value) && Unread(r.value.backup) == Unread(w.input)
    ensures r.Ok? ==> r.value.input == w.input
    ensures r.Err? ==> r.error == PanicTooLarge
  {
    match Write(Reset(w.backup), Unread(w.input))
    case Err(e) => Err(e)
    case Ok((backup, _)) => Ok(w.(backup := backup))
  }

  /** Rollback(): reset the input and copy the backup into it. */
  function Rollback(w: WebReaderWriter): (r: Result<WebReaderWriter, Panic>)
    requires Good(w)
    ensures r.Ok? ==> Good(r.value) && Unread(r.value.input) == Unread(w.backup)
    ensures r.Ok? ==> r.value.backup == w.backup
    ensures r.Err? ==> r.error == PanicTooLarge
  {
    match Write(Reset(w.input), Unread(w.backup))
    case Err(e) => Err(e)
    case Ok((input, _)) => Ok(w.(input := input))
  }

  /** What may happen to the input between a snapshot and a rollback: reads
      by the frame reader and appends by onReceiveData. */
  datatype Event = Consume(n: nat) | Receive(buff: Bytes)

  function Run(w: WebReaderWriter, events: seq<Event>): (r: Result<WebReaderWriter, Panic>)
    requires Good(w)
    ensures r.Ok? ==> Good(r.value) && r.value.backup == w.backup
    decreases |events|
  {
    if events == [] then Ok(w)
    else
      var next := match events[0]
        case Consume(n) => Ok(w.(input := Read(w.input, n).buf))
        case Receive(buff) => OnReceiveData(w, buff);
      match next
      case Err(e) => Err(e)
      case Ok(w') => Run(w', events[1..])
  }

  /** Snapshot, then any reads and appends, then Rollback: the input holds
      exactly what it held at snapshot time, and the bytes appended in
      between are gone. */
  lemma SnapshotRollback(w: WebReaderWriter, events: seq<Event>)
    requires Good(w) && TakeSnapshot(w).Ok?
    requires Run(TakeSnapshot(w).value, events).Ok?
    requires Rollback(Run(TakeSnapshot(w).value, events).value).Ok?
    ensures Unread(Rollback(Run(TakeSnapshot(w).value, events).value).value.input) == Unread(w.input)
  {
  }
}
