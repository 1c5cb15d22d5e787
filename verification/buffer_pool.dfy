/** epoll/buffer_pool.go: a pool of reusable buffers that refuses to keep
    any buffer whose capacity exceeds its bound. The sync.Pool underneath is
    a bag of pooled buffers: it keeps no order, and which one Get takes (or
    whether it makes a new one) is a choice the caller passes in. */
module BufferPool {
  import opened Wrappers
  import opened Buffer

  datatype Pool = Pool(items: seq<Buffer>, maxBufferSize: int)

  /** gBufferPool's bound. */
  const SharedMaxBufferSize: int := 32768

  function NewBufferPool(maxBufferSize: int): (p: Pool)
    ensures p.items == [] && p.maxBufferSize == maxBufferSize
  {
    Pool([], maxBufferSize)
  }

  /** gBufferPool. */
  function SharedPool(): (p: Pool)
    ensures p.maxBufferSize == 32768 && p.items == []
  {
    NewBufferPool(SharedMaxBufferSize)
  }

  /** No pooled buffer is over the bound. */
  predicate Bounded(p: Pool) {
    forall i :: 0 <= i < |p.items| ==> Cap(p.items[i]) <= p.maxBufferSize
  }

  /** Every pooled buffer satisfies the buffer invariant and is empty. */
  predicate Clean(p: Pool) {
    forall i :: 0 <= i < |p.items| ==> Valid(p.items[i]) && Len(p.items[i]) == 0
  }

  /** Get: sync.Pool promises no order, and may drop pooled items at any
      time, so the caller's `pick` chooses: Some(i) takes the i-th pooled
      buffer, and None (or an index beyond the pool) is `New()`, a zero
      Buffer. A dropped item is one no pick ever names. */
  function Get(p: Pool, pick: Option<nat>): (r: (Pool, Buffer))
    ensures r.0.maxBufferSize == p.maxBufferSize
    ensures (r.1 == Zero && r.0 == p) || multiset(r.0.items) + multiset{r.1} == multiset(p.items)
    ensures pick.Some? && pick.value < |p.items| ==> r.1 == p.items[pick.value]
    ensures Bounded(p) ==> Bounded(r.0) && (r.1 == Zero || Cap(r.1) <= p.maxBufferSize)
    ensures Clean(p) ==> Clean(r.0) && Valid(r.1) && Len(r.1) == 0
  {
    if pick.Some? && pick.value < |p.items| then
      var i := pick.value;
      assert p.items == p.items[..i] + [p.items[i]] + p.items[i + 1..];
      (p.(items := p.items[..i] + p.items[i + 1..]), p.items[i])
    else (p, Zero)
  }

  /** Put: keep the buffer only if it is non-nil and within the bound. */
  function Put(p: Pool, b: Option<Buffer>): (r: Pool)
    ensures b.None? ==> r == p
    ensures b.Some? && Cap(b.value) > p.maxBufferSize ==> r == p
    ensures b.Some? && Cap(b.value) <= p.maxBufferSize ==> r.items == p.items + [b.value]
    ensures r.maxBufferSize == p.maxBufferSize
  {
    if b.Some? && Cap(b.value) <= p.maxBufferSize then p.(items := p.items + [b.value])
    else p
  }

  /** Put never lets an oversized buffer in. */
  lemma PutKeepsBound(p: Pool, b: Option<Buffer>)
    requires Bounded(p)
    ensures Bounded(Put(p, b))
  {
  }

  /** Whatever the pick, Get hands out a zero buffer or one that was put
      before; a buffer put back within the bound can be handed out again,
      and a nil or oversized one can only come back if it was already
      pooled. */
  lemma PutThenGet(p: Pool, b: Buffer, pick: Option<nat>)
    ensures var g := Get(Put(p, Some(b)), pick).1;
      g == Zero || g == b || g in p.items
    ensures Cap(b) <= p.maxBufferSize ==> Get(Put(p, Some(b)), Some(|p.items|)).1 == b
    ensures Cap(b) > p.maxBufferSize && b != Zero && b !in p.items ==> Get(Put(p, Some(b)), pick).1 != b
  {
    var q := Put(p, Some(b));
    var g := Get(q, pick);
    if g.1 != Zero || g.0 != q {
      assert g.1 in multiset(q.items);
    }
  }
}
