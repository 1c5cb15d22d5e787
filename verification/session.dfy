/** session.go: session ids, the once-only Close, and the close callbacks.
    loom.WaitClose is the flag `shut`: its Close runs the teardown only the
    first time. The teardown is recorded as a log of steps. */
module Session {
  import opened Wrappers
  import opened Delegate

  /** The steps a teardown performs, in order. */
  datatype Teardown = CloseConn | DisposeAttachment | RunCallback(id: nat)

  /** The part of a Session that closing touches. */
  datatype Session = Session(id: int, shut: bool, callbacks: seq<Callback>, log: seq<Teardown>)

  /** NewSession's id: atomic.AddInt64(&idGenerator, 1) on the shared
      counter; the counter afterwards and the new id. */
  function NextId(generator: int): (r: (int, int))
    ensures r.1 > generator && r.0 == r.1
  {
    (generator + 1, generator + 1)
  }

  /** The ids of n sessions created one after another. */
  function IssueIds(generator: int, n: nat): (ids: seq<int>)
    ensures |ids| == n
    decreases n
  {
    if n == 0 then []
    else
      var (g, id) := NextId(generator);
      [id] + IssueIds(g, n - 1)
  }

  /** Every id is greater than every id issued before it, and than the
      counter's starting value. */
  lemma {:induction false} IdsIncrease(generator: int, n: nat)
    ensures forall i :: 0 <= i < n ==> IssueIds(generator, n)[i] > generator
    ensures forall i, j :: 0 <= i < j < n ==> IssueIds(generator, n)[i] < IssueIds(generator, n)[j]
    decreases n
  {
    if n > 0 {
      IdsIncrease(generator + 1, n - 1);
    }
  }

  /** The log entries for running callbacks with these ids. */
  function Runs(ids: seq<nat>): (r: seq<Teardown>)
    ensures |r| == |ids| && forall i :: 0 <= i < |ids| ==> r[i] == RunCallback(ids[i])
    decreases |ids|
  {
    if ids == [] then [] else [RunCallback(ids[0])] + Runs(ids[1..])
  }

  /** OnClosed(callback): nil is ignored, others are appended. */
  function OnClosed(s: Session, callback: Option<Callback>): (r: Session)
    ensures callback.None? ==> r == s
    ensures callback.Some? ==> r.callbacks == s.callbacks + [callback.value]
    ensures r.shut == s.shut && r.log == s.log && r.id == s.id
  {
    s.(callbacks := Add(s.callbacks, callback))
  }

  /** invokeOnClosedCallbacks: the Delegate rule over the callback list. */
  function InvokeOnClosedCallbacks(s: Session): (r: Session)
    ensures r.shut == s.shut && r.id == s.id
    ensures r.log == s.log + Runs(Invoke(s.callbacks).called)
  {
    var inv := Invoke(s.callbacks);
    s.(callbacks := inv.handlers, log := s.log + Runs(inv.called))
  }

  /** Close(): the first call closes the connection and then runs the
      callbacks; later calls do nothing. */
  function Close(s: Session): (r: Session)
    ensures r.shut
    ensures s.shut ==> r == s
    ensures !s.shut ==> r.log == s.log + [CloseConn] + Runs(Invoke(s.callbacks).called)
  {
    if s.shut then s
    else InvokeOnClosedCallbacks(s.(shut := true, log := s.log + [CloseConn]))
  }

  /** Close is idempotent: the connection is closed and the callbacks run at
      most once, however often Close is called. */
  lemma CloseOnce(s: Session)
    ensures Close(Close(s)) == Close(s)
    ensures !s.shut ==> |Close(s).log| >= |s.log| + 1 && Close(s).log[|s.log|] == CloseConn
  {
  }

  /** The callbacks closing runs are those registered before Close, in
      registration order, up to the first that panics. */
  lemma CloseRunsRegisteredCallbacks(s: Session)
    requires !s.shut
    ensures var runs := Close(s).log[|s.log| + 1..];
      && |runs| <= |s.callbacks|
      && (forall i :: 0 <= i < |runs| ==> runs[i] == RunCallback(s.callbacks[i].id))
      && (|runs| < |s.callbacks| <==> exists i :: 0 <= i < |s.callbacks| - 1 && s.callbacks[i].panics)
  {
    InvokeCallsSnapshot(s.callbacks);
    assert Close(s).log[|s.log| + 1..] == Runs(Invoke(s.callbacks).called);
  }
}
