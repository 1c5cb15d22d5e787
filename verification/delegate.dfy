/** delegate.go: a list of `func()` handlers. Add appends a non-nil
    handler; Invoke calls a copy of the list taken up front, in order, and a
    panic in one handler ends the call quietly. */
module Delegate {
  import opened Wrappers

  /** A handler: an identity, whether calling it panics, and the handlers it
      registers on the same delegate while it runs (None is a nil func). The
      registrations happen before a panic. */
  datatype Callback = Callback(id: nat, panics: bool, adds: seq<Option<Callback>>)

  /** Add(handler). */
  function Add(handlers: seq<Callback>, h: Option<Callback>): seq<Callback> {
    if h.Some? then handlers + [h.value] else handlers
  }

  /** The non-nil handlers of a list, in order. */
  function NonNil(hs: seq<Option<Callback>>): (r: seq<Callback>)
    ensures |r| <= |hs|
    decreases |hs|
  {
    if hs == [] then []
    else (if hs[0].Some? then [hs[0].value] else []) + NonNil(hs[1..])
  }

  /** Add of each handler in turn. */
  function AddAll(handlers: seq<Callback>, hs: seq<Option<Callback>>): seq<Callback>
    decreases |hs|
  {
    if hs == [] then handlers else AddAll(Add(handlers, hs[0]), hs[1..])
  }

  /** Registration keeps order and ignores nils: adding a list of handlers
      appends exactly its non-nil entries, in order. */
  lemma {:induction false} AddAllAppendsNonNil(handlers: seq<Callback>, hs: seq<Option<Callback>>)
    ensures AddAll(handlers, hs) == handlers + NonNil(hs)
    decreases |hs|
  {
    if hs != [] {
      AddAllAppendsNonNil(Add(handlers, hs[0]), hs[1..]);
      if hs[0].Some? {
        assert handlers + [hs[0].value] + NonNil(hs[1..]) == handlers + ([hs[0].value] + NonNil(hs[1..]));
      } else {
        assert [] + NonNil(hs[1..]) == NonNil(hs[1..]);
      }
    }
  }

  /** The handlers invoked and the list afterwards. */
  datatype Invoked = Invoked(called: seq<nat>, handlers: seq<Callback>)

  /** The calls made for a snapshot while the live list is `live`. */
  function RunFrom(snapshot: seq<Callback>, live: seq<Callback>): (r: Invoked)
    ensures |r.called| <= |snapshot|
    ensures forall i :: 0 <= i < |r.called| ==> r.called[i] == snapshot[i].id
    ensures forall i :: 0 <= i < |r.called| - 1 ==> !snapshot[i].panics
    ensures |r.called| < |snapshot| ==> |r.called| > 0 && snapshot[|r.called| - 1].panics
    ensures |r.handlers| >= |live| && r.handlers[..|live|] == live
    decreases |snapshot|
  {
    if snapshot == [] then Invoked([], live)
    else
      var h := snapshot[0];
      var live' := AddAll(live, h.adds);
      AddAllAppendsNonNil(live, h.adds);
      if h.panics then Invoked([h.id], live')
      else
        var t := RunFrom(snapshot[1..], live');
        assert t.handlers[..|live|] == live' [..|live|];
        Invoked([h.id] + t.called, t.handlers)
  }

  /** Invoke(): run the handlers of the copy taken on entry. */
  function Invoke(handlers: seq<Callback>): Invoked {
    RunFrom(handlers, handlers)
  }

  /** Invoke calls the handlers present on entry, in order, up to and
      including the first that panics; handlers registered while it runs are
      kept but not called; the list is only ever extended. */
  lemma InvokeCallsSnapshot(handlers: seq<Callback>)
    ensures var r := Invoke(handlers);
      && |r.called| <= |handlers|
      && (forall i :: 0 <= i < |r.called| ==> r.called[i] == handlers[i].id)
      && (|r.called| < |handlers| <==> exists i :: 0 <= i < |handlers| - 1 && handlers[i].panics)
      && r.handlers[..|handlers|] == handlers
  {
    var r := Invoke(handlers);
    if exists i :: 0 <= i < |handlers| - 1 && handlers[i].panics {
      var i :| 0 <= i < |handlers| - 1 && handlers[i].panics;
    }
  }

  /** Handlers that register nothing leave the list as it was. */
  lemma {:induction false} QuietHandlersKeepList(snapshot: seq<Callback>, live: seq<Callback>)
    requires forall i :: 0 <= i < |snapshot| ==> snapshot[i].adds == []
    ensures RunFrom(snapshot, live).handlers == live
    decreases |snapshot|
  {
    if snapshot != [] {
      QuietHandlersKeepList(snapshot[1..], live);
    }
  }
}
