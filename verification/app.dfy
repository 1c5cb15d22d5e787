/** app.go (bugfly): the App's session table and connected callbacks, its
    argument check and the two shared packets it builds. A new session is
    stored under its id and, through the first close callback it ever gets,
    removed again when it closes; the connected callbacks then run in order
    and a panic in one of them ends the rest quietly. As written, the
    session's receive loop is already running when the remover is
    registered, and a session that closes in between stays in the table for
    good (OnNewSessionAsWritten); OnNewSession is the corrected order, in
    which the remover is registered before the session can close. */
module App {
  import opened Wrappers
  import opened Wire
  import opened Values
  import opened Protocol
  import opened Delegate
  import opened Session
  import CommonSessionArgs
  import SessionSend

  const DefaultHeartbeatTimeout: int64 := 10 * 1_000_000_000

  /** checkAppArgs: only a zero heartbeat timeout gets the default of ten
      seconds. */
  function CheckAppArgs(timeoutNanos: int64): (r: int64)
    ensures r != 0
    ensures timeoutNanos != 0 ==> r == timeoutNanos
  {
    if timeoutNanos == 0 then DefaultHeartbeatTimeout else timeoutNanos
  }

  /** A negative timeout is kept, so every session's goSend panics on
      making its heartbeat ticker, before it writes anything. */
  lemma NegativeTimeoutKept(timeoutNanos: int64, heartbeat: Bytes, events: seq<SessionSend.SendEvent>)
    requires timeoutNanos < 0
    ensures CheckAppArgs(timeoutNanos) == timeoutNanos
    ensures SessionSend.GoSendStart(CheckAppArgs(timeoutNanos), heartbeat, events) == Err(PanicNonPositiveInterval)
  {
  }

  /** The closure `my.sessions.Remove(id)`: it never panics and registers
      nothing. */
  const Remover := Callback(0, false, [])

  /** The App's state: the shared id counter, the session table and the
      loop's onSessionConnectedCallbacks. */
  datatype App = App(generator: int, sessions: map<int, Session>, connected: seq<Callback>)

  /** Every stored session is open, is stored under its own id, has an id the
      counter has already issued, and has the remover as its first close
      callback. */
  ghost predicate Valid(app: App) {
    forall id :: id in app.sessions ==>
      && app.sessions[id].id == id
      && id <= app.generator
      && !app.sessions[id].shut
      && |app.sessions[id].callbacks| > 0
      && app.sessions[id].callbacks[0] == Remover
  }

  /** onNewSession: the App afterwards, the new session's id, and the ids of
      the connected callbacks that ran. */
  datatype NewSession = NewSession(app: App, id: int, ran: seq<nat>)

  /** onNewSession with the remover registered before anything can close the
      session: the corrected order, which the rest of the model uses. */
  function OnNewSession(app: App): (r: NewSession)
    ensures r.id > app.generator && r.id in r.app.sessions
    ensures r.app.sessions.Keys == app.sessions.Keys + {r.id}
    ensures forall k :: k in app.sessions && k != r.id ==> r.app.sessions[k] == app.sessions[k]
    ensures r.app.connected == app.connected
    ensures |r.ran| <= |app.connected|
    ensures forall i :: 0 <= i < |r.ran| ==> r.ran[i] == app.connected[i].id
    ensures |r.ran| < |app.connected| ==> r.ran != [] && app.connected[|r.ran| - 1].panics
  {
    var (g, id) := NextId(app.generator);
    var s := OnClosed(Session(id, false, [], []), Some(Remover));
    NewSession(app.(generator := g, sessions := app.sessions[id := s]), id, Invoke(app.connected).called)
  }

  /** onNewSession as written. NewSession starts goReceive (session.go:89)
      before app.go:101 registers the remover, and goReceive's deferred
      Close (session.receive.go:22) runs as soon as its first read fails.
      closedFirst is the scheduler's choice that this Close comes first: the
      session is then stored already shut, its callbacks have run (there
      were none), and the remover joins a list that will never run again.
      Otherwise the steps happen as in OnNewSession. */
  function OnNewSessionAsWritten(app: App, closedFirst: bool): (r: NewSession)
    ensures !closedFirst ==> r == OnNewSession(app)
    ensures r.id > app.generator && r.id in r.app.sessions
    ensures r.app.sessions.Keys == app.sessions.Keys + {r.id}
    ensures forall k :: k in app.sessions && k != r.id ==> r.app.sessions[k] == app.sessions[k]
    ensures r.app.connected == app.connected
    ensures closedFirst ==> var s := r.app.sessions[r.id];
      s.shut && s.callbacks == [Remover] && s.log == [CloseConn]
  {
    var (g, id) := NextId(app.generator);
    var born := Session(id, false, [], []);
    var started := if closedFirst then Close(born) else born;
    var s := OnClosed(started, Some(Remover));
    NewSession(app.(generator := g, sessions := app.sessions[id := s]), id, Invoke(app.connected).called)
  }

  /** The as-written half of the Finding: a session closed before its
      remover is registered is stored shut, breaking Valid, and closing it
      again leaves the table as it is, so it is never removed. */
  lemma EarlyCloseLeaks(app: App)
    ensures var r := OnNewSessionAsWritten(app, true);
      && r.app.sessions[r.id].shut
      && !Valid(r.app)
      && SessionClosed(r.app, r.id).sessions == r.app.sessions
      && r.id in SessionClosed(r.app, r.id).sessions
  {
    var r := OnNewSessionAsWritten(app, true);
    assert r.id in r.app.sessions;
  }

  /** A new session never replaces a stored one, and the table stays valid. */
  lemma NewSessionKeepsValid(app: App)
    requires Valid(app)
    ensures app.generator + 1 !in app.sessions
    ensures Valid(OnNewSession(app).app)
  {
  }

  /** OnSessionConnected(callback): nil is ignored, others are appended. */
  function OnSessionConnected(app: App, callback: Option<Callback>): (r: App)
    ensures callback.None? ==> r == app
    ensures callback.Some? ==> r.connected == app.connected + [callback.value]
    ensures r.sessions == app.sessions && r.generator == app.generator
  {
    app.(connected := Add(app.connected, callback))
  }

  /** A callback registered after quiet ones runs for every later session. */
  lemma ConnectedCallbackRuns(app: App, cb: Callback)
    requires forall i :: 0 <= i < |app.connected| ==> !app.connected[i].panics
    ensures var r := OnNewSession(OnSessionConnected(app, Some(cb)));
      |r.ran| == |app.connected| + 1 && r.ran[|app.connected|] == cb.id
  {
    var connected := app.connected + [cb];
    InvokeCallsSnapshot(connected);
  }

  /** session.OnClosed(callback) on a stored session. */
  function OnSessionClosedRegistered(app: App, id: int, callback: Option<Callback>): (r: App)
    requires id in app.sessions
    ensures r.sessions.Keys == app.sessions.Keys && r.generator == app.generator
  {
    app.(sessions := app.sessions[id := OnClosed(app.sessions[id], callback)])
  }

  /** Close() of a stored session: its close callbacks run, and the table
      entry goes when the remover is among them. */
  function SessionClosed(app: App, id: int): (r: App)
    requires id in app.sessions
    ensures r.generator == app.generator && r.connected == app.connected
    ensures r.sessions.Keys <= app.sessions.Keys
  {
    var s := app.sessions[id];
    var closed := Close(s);
    var ran := Invoke(s.callbacks).called;
    if !s.shut && |ran| > 0 && s.callbacks[0] == Remover
    then app.(sessions := app.sessions - {id})
    else app.(sessions := app.sessions[id := closed])
  }

  /** Later close callbacks never keep a session in the table: however many
      were registered, closing removes it and nothing else, and the table
      stays valid. */
  lemma ClosedSessionIsRemoved(app: App, id: int, callback: Option<Callback>)
    requires Valid(app) && id in app.sessions
    ensures Valid(OnSessionClosedRegistered(app, id, callback))
    ensures SessionClosed(app, id).sessions == app.sessions - {id}
    ensures Valid(SessionClosed(app, id))
  {
    var s := app.sessions[id];
    InvokeCallsSnapshot(s.callbacks);
    assert Invoke(s.callbacks).called != [];
  }

  /** heartbeatDataEncode: the handshake reply and the heartbeat packet. */
  datatype SharedPackets = SharedPackets(handshakeResponse: Bytes, heartbeat: Bytes)

  function HeartbeatDataEncode(codecs: Codecs, marshal: CommonSessionArgs.Marshal, deflate: CommonSessionArgs.Deflate,
                               heartbeatNanos: int, serializer: Serializer, compression: bool): (r: Result<SharedPackets, GoError>)
    ensures marshal(CommonSessionArgs.MakeHandshakeData(heartbeatNanos, serializer)).Err? ==> r.Err?
    ensures codecs.packetEncode(Heartbeat, []).Err? ==> r.Err?
  {
    match marshal(CommonSessionArgs.MakeHandshakeData(heartbeatNanos, serializer))
    case Err(e) => Err(e)
    case Ok(data) =>
      match CommonSessionArgs.ChoosePayload(data, compression, deflate)
      case Err(e) => Err(e)
      case Ok(payload) =>
        match codecs.packetEncode(Handshake, payload)
        case Err(e) => Err(e)
        case Ok(handshake) =>
          match codecs.packetEncode(Heartbeat, [])
          case Err(e) => Err(e)
          case Ok(heartbeat) => Ok(SharedPackets(handshake, heartbeat))
  }

  /** The App builds the same two packets as the road session arguments: it
      succeeds exactly when both of theirs do, with the same bytes. */
  lemma SameSharedPackets(codecs: Codecs, marshal: CommonSessionArgs.Marshal, deflate: CommonSessionArgs.Deflate,
                          heartbeatNanos: int, serializer: Serializer, compression: bool)
    ensures var r := HeartbeatDataEncode(codecs, marshal, deflate, heartbeatNanos, serializer, compression);
      var hs := CommonSessionArgs.EncodeHandshakeData(codecs, marshal, deflate, heartbeatNanos, serializer, compression);
      var hb := CommonSessionArgs.EncodeHeartbeatData(codecs);
      && (r.Ok? <==> hs.Ok? && hb.Ok?)
      && (r.Ok? ==> r.value == SharedPackets(hs.value, hb.value))
  {
  }
}
