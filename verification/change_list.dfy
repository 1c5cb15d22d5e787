/** The kqueue change list shared by epoll/ws_poll_bsd.go and
    epoll/poll_bsd.go: an array of read-interest registrations, one per
    added connection. `add` appends, `remove` deletes the first entry for a
    descriptor by shifting the tail left, and the WebSocket poll loop works
    on a copy. */
module ChangeList {
  import opened Wrappers
  import opened Wire

  /** A registration for EVFILT_READ with EV_ADD | EV_EOF; only the
      descriptor varies. */
  datatype Kevent = Kevent(ident: int)

  predicate Mentions(changes: seq<Kevent>, fd: int) {
    exists i :: 0 <= i < |changes| && changes[i].ident == fd
  }

  /** Reference definition: the list without its first entry for `fd`. */
  function RemoveFirst(changes: seq<Kevent>, fd: int): (r: seq<Kevent>)
    decreases |changes|
  {
    if changes == [] then []
    else if changes[0].ident == fd then changes[1..]
    else [changes[0]] + RemoveFirst(changes[1..], fd)
  }

  /** The reference removes exactly the entry at the first matching index. */
  lemma {:induction false} RemoveFirstAt(changes: seq<Kevent>, fd: int, k: nat)
    requires k < |changes| && changes[k].ident == fd
    requires forall j :: 0 <= j < k ==> changes[j].ident != fd
    ensures RemoveFirst(changes, fd) == changes[..k] + changes[k + 1..]
    decreases k
  {
    if k > 0 {
      RemoveFirstAt(changes[1..], fd, k - 1);
      assert changes[1..][..k - 1] == changes[1..k];
      assert changes[1..][k..] == changes[k + 1..];
      assert [changes[0]] + changes[1..k] == changes[..k];
    }
  }

  /** Without a match the reference changes nothing. */
  lemma {:induction false} RemoveFirstAbsent(changes: seq<Kevent>, fd: int)
    requires !Mentions(changes, fd)
    ensures RemoveFirst(changes, fd) == changes
    decreases |changes|
  {
    if changes != [] {
      assert !Mentions(changes[1..], fd) by {
        forall i | 0 <= i < |changes[1..]|
          ensures changes[1..][i].ident != fd
        {
          assert changes[1..][i] == changes[i + 1];
        }
      }
      RemoveFirstAbsent(changes[1..], fd);
    }
  }

  /** One removal takes out one copy of one matching entry and nothing else. */
  lemma {:induction false} RemoveFirstCount(changes: seq<Kevent>, fd: int)
    requires Mentions(changes, fd)
    ensures |RemoveFirst(changes, fd)| == |changes| - 1
    ensures multiset(RemoveFirst(changes, fd)) + multiset{Kevent(fd)} == multiset(changes)
    decreases |changes|
  {
    if changes[0].ident != fd {
      assert Mentions(changes[1..], fd) by {
        var i :| 0 <= i < |changes| && changes[i].ident == fd;
        assert changes[1..][i - 1] == changes[i];
      }
      RemoveFirstCount(changes[1..], fd);
      assert changes == [changes[0]] + changes[1..];
    } else {
      assert changes == [changes[0]] + changes[1..];
    }
  }

  /** Removing the entry for one descriptor keeps every other descriptor's
      registration. */
  lemma {:induction false} RemoveFirstKeepsOthers(changes: seq<Kevent>, fd: int, g: int)
    requires Mentions(changes, g) && g != fd
    ensures Mentions(RemoveFirst(changes, fd), g)
    decreases |changes|
  {
    var r := RemoveFirst(changes, fd);
    if changes[0].ident == g {
      assert r[0] == changes[0];
    } else {
      var i :| 0 <= i < |changes| && changes[i].ident == g;
      assert changes[1..][i - 1] == changes[i];
      if changes[0].ident == fd {
        assert r[i - 1] == changes[i];
      } else {
        RemoveFirstKeepsOthers(changes[1..], fd, g);
        var j :| 0 <= j < |RemoveFirst(changes[1..], fd)| && RemoveFirst(changes[1..], fd)[j].ident == g;
        assert r[j + 1] == RemoveFirst(changes[1..], fd)[j];
      }
    }
  }

  /** `add`: append one registration at the end. */
  function Add(changes: seq<Kevent>, fd: int): (r: seq<Kevent>)
    ensures |r| == |changes| + 1 && r[..|changes|] == changes && r[|changes|] == Kevent(fd)
  {
    changes + [Kevent(fd)]
  }

  /** The body of `remove` under the lock: find the first index whose ident
      is `fd`, shift the entries after it one place left and drop the last. */
  method Remove(changes: seq<Kevent>, fd: int) returns (r: seq<Kevent>, found: bool)
    ensures found <==> Mentions(changes, fd)
    ensures r == RemoveFirst(changes, fd)
    ensures found ==> |r| == |changes| - 1
    ensures !found ==> r == changes
  {
    var count := |changes|;
    var idxFind := -1;
    var i := 0;
    while i < count
      invariant 0 <= i <= count
      invariant idxFind == -1
      invariant forall j :: 0 <= j < i ==> changes[j].ident != fd
    {
      if changes[i].ident == fd {
        idxFind := i;
        break;
      }
      i := i + 1;
    }
    if idxFind < 0 {
      RemoveFirstAbsent(changes, fd);
      return changes, false;
    }
    var d := changes;
    var src := idxFind + 1;
    var dst := idxFind;
    while src < count
      invariant idxFind + 1 <= src <= count && dst == src - 1
      invariant |d| == count
      invariant forall k :: 0 <= k < idxFind ==> d[k] == changes[k]
      invariant forall k :: idxFind <= k < dst ==> d[k] == changes[k + 1]
      invariant forall k :: src <= k < count ==> d[k] == changes[k]
    {
      d := d[dst := d[src]];
      src, dst := src + 1, dst + 1;
    }
    r := d[..count - 1];
    RemoveFirstAt(changes, fd, idxFind);
    assert r == changes[..idxFind] + changes[idxFind + 1..];
    found := true;
  }

  /** `takeSnapshot` as written: the loop's array was made once with length
      and capacity bufferSize, and reslicing it to the length of the change
      list panics once more changes are pending than that. */
  method TakeSnapshot(changes: seq<Kevent>, bufferSize: nat) returns (r: Result<seq<Kevent>, Panic>)
    ensures r.Err? <==> |changes| > bufferSize
    ensures r.Err? ==> r.error == PanicSliceBounds
    ensures r.Ok? ==> r.value == changes
  {
    var fetus := new Kevent[bufferSize](_ => Kevent(0));
    var snapCount := |changes|;
    if snapCount > fetus.Length {
      return Err(PanicSliceBounds);
    }
    var i := 0;
    while i < snapCount
      invariant 0 <= i <= snapCount
      invariant fetus[..i] == changes[..i]
    {
      fetus[i] := changes[i];
      i := i + 1;
    }
    r := Ok(fetus[..snapCount]);
  }

  /** The smallest input that shows it: a one-entry buffer and two pending
      changes. */
  method SnapshotOverflowExample() returns (r: Result<seq<Kevent>, Panic>)
    ensures r == Err(PanicSliceBounds)
  {
    r := TakeSnapshot([Kevent(1), Kevent(2)], 1);
  }

  /** `takeSnapshot` with an array that is replaced by a larger one when the
      change list outgrows it: the snapshot is the whole list, whatever the
      buffer size. */
  method TakeGrowingSnapshot(changes: seq<Kevent>, bufferSize: nat) returns (snapshot: seq<Kevent>)
    ensures snapshot == changes
  {
    var fetus := new Kevent[bufferSize](_ => Kevent(0));
    var snapCount := |changes|;
    if snapCount > fetus.Length {
      fetus := new Kevent[snapCount](_ => Kevent(0));
    }
    var i := 0;
    while i < snapCount
      invariant 0 <= i <= snapCount <= fetus.Length
      invariant fetus[..i] == changes[..i]
    {
      fetus[i] := changes[i];
      i := i + 1;
    }
    snapshot := fetus[..snapCount];
  }
}
