/** session_impl.go: the road session. Close runs its teardown once —
    close the connection, empty the attachment, fire onClosed — and returns
    the connection's close error. OnHandShaken and OnClosed register into
    two separate delegates. The connection's writes are kept as a log for
    the sender. */
module SessionImpl {
  import opened Wrappers
  import opened Wire
  import opened Values
  import opened Delegate
  import opened Attachment
  import opened Session

  datatype SessionImpl = SessionImpl(
    id: int,
    attachment: Attachment,
    onHandShaken: seq<Callback>,
    onClosed: seq<Callback>,
    shut: bool,
    log: seq<Teardown>,
    writes: seq<Bytes>)

  /** Close() with `connErr` the result of conn.Close(). A later Close
      returns nil: the once-flag's return value after the first call is
      taken to be nil. */
  function Close(s: SessionImpl, connErr: Option<GoError>): (r: (SessionImpl, Option<GoError>))
    ensures r.0.shut
    ensures s.shut ==> r == (s, None)
    ensures !s.shut ==>
      && r.1 == connErr
      && r.0.attachment == map[]
      && r.0.log == s.log + [CloseConn, DisposeAttachment] + Runs(Invoke(s.onClosed).called)
      && r.0.onHandShaken == s.onHandShaken && r.0.writes == s.writes
  {
    if s.shut then (s, None)
    else
      var inv := Invoke(s.onClosed);
      (s.(shut := true,
          attachment := Dispose(s.attachment),
          onClosed := inv.handlers,
          log := s.log + [CloseConn, DisposeAttachment] + Runs(inv.called)), connErr)
  }

  /** Close can be called many times but tears down once: after the first
      call nothing more is logged and the attachment stays empty. */
  lemma CloseTearsDownOnce(s: SessionImpl, e1: Option<GoError>, e2: Option<GoError>)
    ensures Close(Close(s, e1).0, e2) == (Close(s, e1).0, None)
    ensures Close(s, e1).0.attachment == map[] || s.shut
    ensures forall k: Value :: !s.shut && !k.BytesValue? ==> Get2(Close(s, e1).0.attachment, k) == Ok((NilValue, false))
  {
  }

  /** The first Close closes the connection before disposing the attachment,
      and both before any onClosed handler runs. */
  lemma CloseOrder(s: SessionImpl, connErr: Option<GoError>)
    requires !s.shut
    ensures var log := Close(s, connErr).0.log;
      && log[|s.log|] == CloseConn
      && log[|s.log| + 1] == DisposeAttachment
      && (forall i :: |s.log| + 2 <= i < |log| ==> log[i].RunCallback?)
  {
  }

  /** OnHandShaken(handler). */
  function OnHandShaken(s: SessionImpl, h: Option<Callback>): SessionImpl
  {
    s.(onHandShaken := Add(s.onHandShaken, h))
  }

  /** OnClosed(handler). */
  function OnClosed(s: SessionImpl, h: Option<Callback>): SessionImpl
  {
    s.(onClosed := Add(s.onClosed, h))
  }

  /** The two registrations never touch each other's delegate, and a handler
      registered with OnClosed is among those run by the first Close. */
  lemma RegistrationsAreSeparate(s: SessionImpl, h: Callback, connErr: Option<GoError>)
    requires !s.shut
    requires forall i :: 0 <= i < |s.onClosed| ==> !s.onClosed[i].panics
    ensures OnHandShaken(s, Some(h)).onClosed == s.onClosed
    ensures OnClosed(s, Some(h)).onHandShaken == s.onHandShaken
    ensures RunCallback(h.id) in Close(OnClosed(s, Some(h)), connErr).0.log
  {
    var s' := OnClosed(s, Some(h));
    InvokeCallsSnapshot(s'.onClosed);
    var called := Invoke(s'.onClosed).called;
    assert |called| == |s'.onClosed|;
    var log := Close(s', connErr).0.log;
    assert log[|s.log| + 2 + |s.onClosed|] == RunCallback(h.id);
  }
}
