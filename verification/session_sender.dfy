/** session_sender.go: one goroutine writing the queued bytes of many
    sessions, in queue order. A session whose close signal has fired is
    skipped; a failed write closes the session. */
module SessionSender {
  import opened Wrappers
  import opened Wire
  import opened Values
  import opened SessionImpl

  /** sendingItem, with the outcome its write would have and the error
      conn.Close() returns should the write fail. */
  datatype SendingItem = SendingItem(session: int, data: Bytes, writeFails: bool, closeErr: Option<GoError>)

  /** onWriteBytes(session, data). */
  function OnWriteBytes(s: SessionImpl, data: Bytes, writeFails: bool, closeErr: Option<GoError>): (r: SessionImpl)
    ensures s.shut ==> r == s
    ensures !s.shut ==> r.writes == s.writes + [data]
    ensures !s.shut ==> (r.shut <==> writeFails)
    ensures !s.shut && !writeFails ==> r == s.(writes := s.writes + [data])
  {
    if s.shut then s
    else
      var written := s.(writes := s.writes + [data]);
      if writeFails then Close(written, closeErr).0 else written
  }

  type Sessions = map<int, SessionImpl>

  /** goLoop over the queue: every item is handed to onWriteBytes in turn. */
  function GoLoop(sessions: Sessions, items: seq<SendingItem>): (r: Sessions)
    requires forall i :: 0 <= i < |items| ==> items[i].session in sessions
    ensures r.Keys == sessions.Keys
    decreases |items|
  {
    if items == [] then sessions
    else
      var it := items[0];
      var next := sessions[it.session := OnWriteBytes(sessions[it.session], it.data, it.writeFails, it.closeErr)];
      GoLoop(next, items[1..])
  }

  /** The bytes queued for one session, in queue order. */
  function DataFor(items: seq<SendingItem>, id: int): (r: seq<Bytes>)
    decreases |items|
  {
    if items == [] then []
    else (if items[0].session == id then [items[0].data] else []) + DataFor(items[1..], id)
  }

  /** A closed session is never written to. */
  lemma {:induction false} ClosedSessionNotWritten(sessions: Sessions, items: seq<SendingItem>, id: int)
    requires forall i :: 0 <= i < |items| ==> items[i].session in sessions
    requires id in sessions && sessions[id].shut
    ensures GoLoop(sessions, items)[id] == sessions[id]
    decreases |items|
  {
    if items != [] {
      var it := items[0];
      var next := sessions[it.session := OnWriteBytes(sessions[it.session], it.data, it.writeFails, it.closeErr)];
      ClosedSessionNotWritten(next, items[1..], id);
    }
  }

  /** While writes succeed, each open session receives exactly its queued
      bytes, in queue order, and stays open. */
  lemma {:induction false} WritesInQueueOrder(sessions: Sessions, items: seq<SendingItem>, id: int)
    requires forall i :: 0 <= i < |items| ==> items[i].session in sessions && !items[i].writeFails
    requires id in sessions && !sessions[id].shut
    ensures GoLoop(sessions, items)[id] == sessions[id].(writes := sessions[id].writes + DataFor(items, id))
    decreases |items|
  {
    if items != [] {
      var it := items[0];
      var next := sessions[it.session := OnWriteBytes(sessions[it.session], it.data, it.writeFails, it.closeErr)];
      WritesInQueueOrder(next, items[1..], id);
      if it.session == id {
        assert sessions[id].writes + [it.data] + DataFor(items[1..], id)
            == sessions[id].writes + DataFor(items, id);
      } else {
        assert DataFor(items, id) == [] + DataFor(items[1..], id);
      }
    }
  }

  /** A failed write closes that session; what was queued after it for the
      same session is never written. */
  lemma FailedWriteCloses(sessions: Sessions, it: SendingItem, rest: seq<SendingItem>)
    requires it.session in sessions && !sessions[it.session].shut && it.writeFails
    requires forall i :: 0 <= i < |rest| ==> rest[i].session in sessions
    ensures GoLoop(sessions, [it] + rest)[it.session].shut
    ensures GoLoop(sessions, [it] + rest)[it.session].writes == sessions[it.session].writes + [it.data]
  {
    assert ([it] + rest)[0] == it && ([it] + rest)[1..] == rest;
    var next := sessions[it.session := OnWriteBytes(sessions[it.session], it.data, it.writeFails, it.closeErr)];
    ClosedSessionNotWritten(next, rest, it.session);
  }
}
