/** epoll/buffer.go: a growable byte buffer with a read offset that can be
    saved and restored. The Go slice `buf` is modelled by its backing array
    `arr` (whose length is `cap(buf)`) and its length `len`; the unread content
    is `arr[off..len]`. Panics become `Err` results. */
module Buffer {
  import opened Wrappers
  import opened Wire

  /** smallBufferSize: the capacity of the first allocation of a nil buffer. */
  const SmallBufferSize: nat := 64
  /** maxInt on a 64-bit platform. */
  const MaxInt: int := 0x7fff_ffff_ffff_ffff

  datatype Buffer = Buffer(arr: Bytes, len: nat, off: int, isNil: bool)

  /** The zero value `Buffer{}`: a nil slice and offset 0. */
  const Zero: Buffer := Buffer([], 0, 0, true)

  /** 0 <= off <= len(buf) <= cap(buf); a nil slice has no backing array. */
  predicate Valid(b: Buffer) {
    && 0 <= b.off <= b.len <= |b.arr|
    && (b.isNil ==> |b.arr| == 0)
  }

  function Zeros(n: nat): (z: Bytes)
    ensures |z| == n
    ensures forall i :: 0 <= i < n ==> z[i] == 0
  {
    seq(n, _ => 0)
  }

  /** Bytes(): the unread portion buf[off:]. */
  function Unread(b: Buffer): Bytes
    requires Valid(b)
  {
    b.arr[b.off..b.len]
  }

  function Len(b: Buffer): int {
    b.len - b.off
  }

  function Cap(b: Buffer): nat {
    |b.arr|
  }

  function Empty(b: Buffer): bool {
    b.len <= b.off
  }

  function Reset(b: Buffer): (r: Buffer)
    requires Valid(b)
    ensures Valid(r) && Len(r) == 0 && r.off == 0 && Unread(r) == []
    ensures Cap(r) == Cap(b)
  {
    b.(len := 0, off := 0)
  }

  /** copy(buf, buf[off:]): the unread bytes move to the front of the backing
      array and the rest of the array is left as it was. */
  function Slide(b: Buffer): (arr: Bytes)
    requires Valid(b)
    ensures |arr| == |b.arr|
    ensures arr[..Len(b)] == Unread(b)
  {
    Unread(b) + b.arr[Len(b)..]
  }

  /** The buffer after the slide, with room for n more bytes. */
  function Slid(b: Buffer, n: nat): (g: Buffer)
    requires Valid(b) && Len(b) + n <= Cap(b)
    ensures Valid(g) && g.off == 0 && g.len == Len(b) + n && Cap(g) == Cap(b)
    ensures g.arr[..Len(b)] == Unread(b)
  {
    Buffer(Slide(b), Len(b) + n, 0, b.isNil)
  }

  /** The slow path of grow(n), once the spare capacity is too small: slide
      the unread bytes to the front when they fit in half the array, otherwise
      copy them into a new array of twice the capacity plus n. */
  function Relocate(b: Buffer, n: nat): (r: Result<(Buffer, nat), Panic>)
    requires Valid(b)
    ensures r.Ok? ==>
      && Valid(r.value.0)
      && r.value.0.off == 0
      && r.value.1 == Len(b)
      && r.value.0.len == Len(b) + n
      && r.value.0.arr[..Len(b)] == Unread(b)
      && Cap(r.value.0) <= 2 * Cap(b) + n
    ensures r.Err? ==> r.error == PanicTooLarge && 2 * Cap(b) + n > MaxInt
  {
    var m := Len(b);
    var c := Cap(b);
    if n <= c / 2 - m then
      Ok((Slid(b, n), m))
    else if c > MaxInt - c - n then
      Err(PanicTooLarge)
    else
      var arr := Unread(b) + Zeros(2 * c + n - m);
      assert arr[..m] == Unread(b);
      Ok((Buffer(arr, m + n, 0, false), m))
  }

  /** grow(n): make room for n more bytes and return the index where they go.
      The result's len is index + n and the bytes before the index are the
      old unread content. */
  function GrowIndex(b: Buffer, n: nat): (r: Result<(Buffer, nat), Panic>)
    requires Valid(b)
    ensures r.Ok? ==>
      var (g, i) := r.value;
      && Valid(g)
      && g.len == i + n
      && g.off <= i
      && g.arr[g.off..i] == Unread(b)
      && Cap(g) <= 2 * Cap(b) + n + SmallBufferSize
    ensures r.Err? ==> r.error == PanicTooLarge && 2 * Cap(b) + n > MaxInt
  {
    var b1 := if Len(b) == 0 && b.off != 0 then Reset(b) else b;
    assert Unread(b1) == Unread(b) && Cap(b1) == Cap(b);
    if n <= Cap(b1) - b1.len then
      Ok((b1.(len := b1.len + n), b1.len))
    else if b1.isNil && n <= SmallBufferSize then
      Ok((Buffer(Zeros(SmallBufferSize), n, 0, false), 0))
    else
      Relocate(b1, n)
  }

  /** Grow(n): guarantee n bytes of spare capacity; a negative n panics. */
  function Grow(b: Buffer, n: int): (r: Result<Buffer, Panic>)
    requires Valid(b)
    ensures n < 0 <==> r == Err(PanicNegativeCount)
    ensures r.Ok? ==> Valid(r.value) && Unread(r.value) == Unread(b) && Cap(r.value) - r.value.len >= n
    ensures r.Err? ==> n < 0 || 2 * Cap(b) + n > MaxInt
  {
    if n < 0 then Err(PanicNegativeCount)
    else
      match GrowIndex(b, n)
      case Err(p) => Err(p)
      case Ok((g, i)) => Ok(g.(len := i))
  }

  /** Write(p): append p; the count returned is always len(p). */
  function Write(b: Buffer, p: Bytes): (r: Result<(Buffer, nat), Panic>)
    requires Valid(b)
    ensures r.Ok? ==> Valid(r.value.0) && Unread(r.value.0) == Unread(b) + p && r.value.1 == |p|
    ensures r.Ok? ==> Cap(r.value.0) <= 2 * Cap(b) + |p| + SmallBufferSize
    ensures r.Err? ==> r.error == PanicTooLarge && 2 * Cap(b) + |p| > MaxInt
  {
    var grown: Result<(Buffer, nat), Panic> :=
      if |p| <= Cap(b) - b.len then Ok((b.(len := b.len + |p|), b.len))
      else GrowIndex(b, |p|);
    match grown
    case Err(e) => Err(e)
    case Ok((g, i)) =>
      var arr := g.arr[..i] + p + g.arr[i + |p|..];
      assert arr[g.off..i + |p|] == g.arr[g.off..i] + p;
      Ok((g.(arr := arr), |p|))
  }

  /** The outcome of Read(p) with len(p) == n. */
  datatype ReadResult = ReadResult(buf: Buffer, data: Bytes, n: nat, err: Option<Error>)

  /** Read(p): copy up to len(p) unread bytes. An empty buffer answers EOF
      (nil when len(p) == 0) and keeps its offset, so SetOffset can rewind. */
  function Read(b: Buffer, n: nat): (r: ReadResult)
    requires Valid(b)
    ensures Valid(r.buf) && r.buf.arr == b.arr && r.buf.len == b.len
    ensures r.n == Min(n, Len(b)) == |r.data|
    ensures r.data == Unread(b)[..r.n] && Unread(r.buf) == Unread(b)[r.n..]
    ensures r.buf.off == b.off + r.n
    ensures r.err.Some? <==> Len(b) == 0 && n != 0
    ensures r.err.Some? ==> r.err.value == EOF
  {
    if Empty(b) then
      ReadResult(b, [], 0, if n == 0 then None else Some(EOF))
    else
      var k := Min(n, Len(b));
      ReadResult(b.(off := b.off + k), Unread(b)[..k], k, None)
  }

  /** Next(n): take up to n unread bytes; a negative n panics on the slice. */
  function Next(b: Buffer, n: int): (r: Result<(Buffer, Bytes), Panic>)
    requires Valid(b)
    ensures r.Err? <==> n < 0
    ensures r.Ok? ==>
      var (b', data) := r.value;
      && Valid(b') && b'.arr == b.arr && b'.len == b.len && b'.isNil == b.isNil
      && |data| == Min(n, Len(b))
      && b'.off == b.off + |data|
      && data + Unread(b') == Unread(b)
  {
    var m := Len(b);
    var k := if n > m then m else n;
    if k < 0 then Err(PanicSliceBounds)
    else Ok((b.(off := b.off + k), Unread(b)[..k]))
  }

  /** Tidy(): move the unread bytes to the front so that off becomes 0. */
  function Tidy(b: Buffer): (r: Buffer)
    requires Valid(b)
    ensures Valid(r) && Unread(r) == Unread(b) && r.off == 0 && Cap(r) == Cap(b)
  {
    if Empty(b) then Reset(b)
    else
      var size := Len(b);
      Buffer(Slide(b), size, 0, b.isNil)
  }

  function GetOffset(b: Buffer): int {
    b.off
  }

  /** SetOffset(off) is unchecked: it is the one operation that can break Valid. */
  function SetOffset(b: Buffer, off: int): (r: Buffer)
    ensures GetOffset(r) == off && r.arr == b.arr && r.len == b.len && r.isNil == b.isNil
  {
    b.(off := off)
  }

  /** A read-side call between GetOffset and SetOffset. */
  datatype ReadStep = ReadCall(n: nat) | NextCall(k: nat)

  function ApplyReads(b: Buffer, steps: seq<ReadStep>): (r: Buffer)
    requires Valid(b)
    ensures Valid(r)
    decreases |steps|
  {
    if steps == [] then b
    else
      var b' := match steps[0]
        case ReadCall(n) => Read(b, n).buf
        case NextCall(k) => Next(b, k).value.0;
      ApplyReads(b', steps[1..])
  }

  /** Reads and Nexts only move the offset forward: the array and length stay. */
  lemma {:induction false} ApplyReadsKeepsStorage(b: Buffer, steps: seq<ReadStep>)
    requires Valid(b)
    ensures ApplyReads(b, steps).arr == b.arr
    ensures ApplyReads(b, steps).len == b.len
    ensures b.off <= ApplyReads(b, steps).off
    decreases |steps|
  {
    if steps != [] {
      var b' := match steps[0]
        case ReadCall(n) => Read(b, n).buf
        case NextCall(k) => Next(b, k).value.0;
      ApplyReadsKeepsStorage(b', steps[1..]);
    }
  }

  /** Save the offset, read, restore it: the unread content is as it was. */
  lemma SaveReadRestore(b: Buffer, steps: seq<ReadStep>)
    requires Valid(b)
    ensures var r := SetOffset(ApplyReads(b, steps), GetOffset(b));
      Valid(r) && Unread(r) == Unread(b)
  {
    ApplyReadsKeepsStorage(b, steps);
  }

  /** What Read hands back plus what stays unread is what was unread. */
  lemma ReadSplitsContent(b: Buffer, n: nat)
    requires Valid(b)
    ensures Read(b, n).data + Unread(Read(b, n).buf) == Unread(b)
  {
  }
}
