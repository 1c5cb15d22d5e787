/** attachment.go: a session's key/value store (a sync.Map) with typed
    getters. A getter returns the stored value only when its dynamic type is
    exactly the getter's type, and the zero value otherwise.

    Keys are compared as Go compares interface values: the same dynamic type
    and equal contents, except that a float NaN equals nothing (itself
    included) and the two float zeros are equal. A []byte key cannot be
    hashed, so Store and Load panic on it. The table holds each key in its
    canonical form (a float zero without its sign); an entry stored under a
    NaN can never be loaded again, so it is not kept. */
module Attachment {
  import opened Wrappers
  import opened Wire
  import opened Values

  type Attachment = map<Value, Value>

  const Empty: Attachment := map[]

  const NegativeZero32: uint32 := 0x8000_0000
  const NegativeZero64: uint64 := 0x8000_0000_0000_0000

  /** The bit pattern is an IEEE 754 NaN: all exponent bits set and a
      non-zero fraction, whatever the sign bit. */
  predicate IsNaN(key: Value) {
    match key
    case Float32Value(b) =>
      0x7F80_0000 < b < 0x8000_0000 || 0xFF80_0000 < b
    case Float64Value(b) =>
      0x7FF0_0000_0000_0000 < b < 0x8000_0000_0000_0000 || 0xFFF0_0000_0000_0000 < b
    case _ => false
  }

  /** The key Go's == treats as the same: -0.0 becomes +0.0. */
  function Canon(key: Value): (r: Value)
    ensures r.Float32Value? == key.Float32Value? && r.Float64Value? == key.Float64Value?
    ensures !key.Float32Value? && !key.Float64Value? ==> r == key
    ensures IsNaN(r) == IsNaN(key)
  {
    match key
    case Float32Value(b) => if b == NegativeZero32 then Float32Value(0) else key
    case Float64Value(b) => if b == NegativeZero64 then Float64Value(0) else key
    case _ => key
  }

  /** A key equal to itself under ==, so Load can find what Store put. */
  predicate Comparable(key: Value) {
    !key.BytesValue? && !IsNaN(key)
  }

  /** Go's == on two hashable interface values. */
  predicate GoEqual(x: Value, y: Value) {
    Comparable(x) && Comparable(y) && Canon(x) == Canon(y)
  }

  /** Load would find key in the table. */
  predicate Present(a: Attachment, key: Value) {
    Comparable(key) && Canon(key) in a
  }

  /** The table after Store(key, value) of a hashable key: an equal key now
      maps to value, every other entry stays, and a NaN key adds nothing
      Load could find. */
  function Stored(a: Attachment, key: Value, value: Value): (r: Attachment)
    requires !key.BytesValue?
    ensures Comparable(key) ==> Canon(key) in r && r[Canon(key)] == value
    ensures forall k :: k in a && k != Canon(key) ==> k in r && r[k] == a[k]
    ensures r.Keys <= a.Keys + {Canon(key)}
    ensures IsNaN(key) ==> r == a
  {
    if IsNaN(key) then a else a[Canon(key) := value]
  }

  /** Put(key, value): Store, replacing any earlier value under an equal key;
      a []byte key panics. */
  function Put(a: Attachment, key: Value, value: Value): (r: Result<Attachment, Panic>)
    ensures r.Err? <==> key.BytesValue?
    ensures r.Err? ==> r.error == PanicUnhashable
    ensures r.Ok? ==> r.value == Stored(a, key, value)
  {
    if key.BytesValue? then Err(PanicUnhashable) else Ok(Stored(a, key, value))
  }

  /** Get2(key): Load — the value and whether an equal key is present; a
      []byte key panics. */
  function Get2(a: Attachment, key: Value): (r: Result<(Value, bool), Panic>)
    ensures r.Err? <==> key.BytesValue?
    ensures r.Err? ==> r.error == PanicUnhashable
    ensures r.Ok? ==> (r.value.1 <==> Present(a, key))
    ensures r.Ok? && r.value.1 ==> r.value.0 == a[Canon(key)]
    ensures r.Ok? && !r.value.1 ==> r.value.0 == NilValue
  {
    if key.BytesValue? then Err(PanicUnhashable)
    else if Present(a, key) then Ok((a[Canon(key)], true))
    else Ok((NilValue, false))
  }

  /** Get1(key): the value, or nil for a missing key. */
  function Get1(a: Attachment, key: Value): (r: Result<Value, Panic>)
    ensures key.BytesValue? ==> r == Err(PanicUnhashable)
    ensures !key.BytesValue? && !Present(a, key) ==> r == Ok(NilValue)
    ensures Present(a, key) ==> r == Ok(a[Canon(key)])
  {
    match Get2(a, key)
    case Err(p) => Err(p)
    case Ok((v, ok)) => if ok then Ok(v) else Ok(NilValue)
  }

  function UInt32(a: Attachment, key: Value): Result<uint32, Panic> {
    match Get2(a, key)
    case Err(p) => Err(p)
    case Ok((v, ok)) => Ok(if ok && v.UInt32Value? then v.u32 else 0)
  }

  function Int32(a: Attachment, key: Value): Result<int32, Panic> {
    match Get2(a, key)
    case Err(p) => Err(p)
    case Ok((v, ok)) => Ok(if ok && v.Int32Value? then v.i32 else 0)
  }

  function UInt64(a: Attachment, key: Value): Result<uint64, Panic> {
    match Get2(a, key)
    case Err(p) => Err(p)
    case Ok((v, ok)) => Ok(if ok && v.UInt64Value? then v.u64 else 0)
  }

  function Int64(a: Attachment, key: Value): Result<int64, Panic> {
    match Get2(a, key)
    case Err(p) => Err(p)
    case Ok((v, ok)) => Ok(if ok && v.Int64Value? then v.i64 else 0)
  }

  function Int(a: Attachment, key: Value): Result<int64, Panic> {
    match Get2(a, key)
    case Err(p) => Err(p)
    case Ok((v, ok)) => Ok(if ok && v.IntValue? then v.i else 0)
  }

  /** Float32 and Float64 return bit patterns; all-zero bits is 0.0. */
  function Float32(a: Attachment, key: Value): Result<uint32, Panic> {
    match Get2(a, key)
    case Err(p) => Err(p)
    case Ok((v, ok)) => Ok(if ok && v.Float32Value? then v.f32bits else 0)
  }

  function Float64(a: Attachment, key: Value): Result<uint64, Panic> {
    match Get2(a, key)
    case Err(p) => Err(p)
    case Ok((v, ok)) => Ok(if ok && v.Float64Value? then v.f64bits else 0)
  }

  function Bool(a: Attachment, key: Value): Result<bool, Panic> {
    match Get2(a, key)
    case Err(p) => Err(p)
    case Ok((v, ok)) => Ok(ok && v.BoolValue? && v.b)
  }

  function String(a: Attachment, key: Value): Result<string, Panic> {
    match Get2(a, key)
    case Err(p) => Err(p)
    case Ok((v, ok)) => Ok(if ok && v.StringValue? then v.s else "")
  }

  /** dispose(): delete every key. */
  function Dispose(a: Attachment): (r: Attachment)
    ensures forall k: Value :: !k.BytesValue? ==> Get2(r, k) == Ok((NilValue, false))
  {
    map[]
  }

  /** Put then Get2 on the same key finds the value, unless the key is a NaN,
      which is never found. */
  lemma PutThenGetSame(a: Attachment, key: Value, value: Value)
    ensures Comparable(key) ==> Get2(Stored(a, key, value), key) == Ok((value, true))
    ensures IsNaN(key) ==> Get2(Stored(a, key, value), key) == Ok((NilValue, false))
  {
  }

  /** Put then Get2 of any key: a key equal to the one put finds the value,
      and every other key reads as before; a []byte key panics on both. */
  lemma PutThenGet(a: Attachment, key: Value, value: Value, other: Value)
    ensures key.BytesValue? ==> Put(a, key, value) == Err(PanicUnhashable)
    ensures other.BytesValue? ==> Get2(a, other) == Err(PanicUnhashable)
    ensures !key.BytesValue? && !other.BytesValue? ==>
      Get2(Stored(a, key, value), other) == if GoEqual(other, key) then Ok((value, true)) else Get2(a, other)
    ensures Comparable(key) ==> Get1(Stored(a, key, value), key) == Ok(value)
  {
    if !key.BytesValue? && !other.BytesValue? {
      if GoEqual(other, key) {
        PutThenGetEqual(a, key, value, other);
      } else {
        PutThenGetOther(a, key, value, other);
      }
    }
    if Comparable(key) {
      PutThenGetEqual(a, key, value, key);
    }
  }

  lemma PutThenGetEqual(a: Attachment, key: Value, value: Value, other: Value)
    requires GoEqual(other, key)
    ensures Get2(Stored(a, key, value), other) == Ok((value, true))
    ensures Get1(Stored(a, key, value), other) == Ok(value)
  {
    var b := Stored(a, key, value);
    assert Present(b, other) && b[Canon(other)] == value;
  }

  lemma PutThenGetOther(a: Attachment, key: Value, value: Value, other: Value)
    requires !key.BytesValue? && !other.BytesValue? && !GoEqual(other, key)
    ensures Get2(Stored(a, key, value), other) == Get2(a, other)
  {
    if !IsNaN(key) {
      var b := Stored(a, key, value);
      if Comparable(other) {
        assert Canon(other) != Canon(key);
        assert (Canon(other) in b) == (Canon(other) in a);
      }
    }
  }

  /** The float keys Go's == treats specially: the two zeros are one key,
      and a NaN is not even equal to itself. */
  lemma FloatKeys(a: Attachment, value: Value, nan: Value)
    requires IsNaN(nan)
    ensures Get2(Stored(a, Float64Value(NegativeZero64), value), Float64Value(0)) == Ok((value, true))
    ensures Get2(Stored(a, Float32Value(NegativeZero32), value), Float32Value(0)) == Ok((value, true))
    ensures !GoEqual(nan, nan)
    ensures Put(a, nan, value) == Ok(a) && Get2(a, nan) == Ok((NilValue, false))
  {
  }

  /** A []byte key panics in Put, Get1, Get2 and every typed getter. */
  lemma BytesKeyPanics(a: Attachment, bytes: Bytes, value: Value)
    ensures var key := BytesValue(bytes);
      && Put(a, key, value) == Err(PanicUnhashable)
      && Get2(a, key) == Err(PanicUnhashable) && Get1(a, key) == Err(PanicUnhashable)
      && UInt32(a, key) == Err(PanicUnhashable) && Int32(a, key) == Err(PanicUnhashable)
      && UInt64(a, key) == Err(PanicUnhashable) && Int64(a, key) == Err(PanicUnhashable)
      && Int(a, key) == Err(PanicUnhashable) && Float32(a, key) == Err(PanicUnhashable)
      && Float64(a, key) == Err(PanicUnhashable) && Bool(a, key) == Err(PanicUnhashable)
      && String(a, key) == Err(PanicUnhashable)
  {
  }

  /** Each typed getter returns what was put when the type matches and the
      key equals itself; under a NaN key it reads the zero value. */
  lemma TypedGetterReturnsPut(a: Attachment, key: Value,
                              u32: uint32, i32: int32, u64: uint64, i64: int64, i: int64,
                              f32: uint32, f64: uint64, b: bool, s: string)
    ensures !key.BytesValue? ==> UInt32(Stored(a, key, UInt32Value(u32)), key) == Ok(if Comparable(key) then u32 else 0)
    ensures !key.BytesValue? ==> Int32(Stored(a, key, Int32Value(i32)), key) == Ok(if Comparable(key) then i32 else 0)
    ensures !key.BytesValue? ==> UInt64(Stored(a, key, UInt64Value(u64)), key) == Ok(if Comparable(key) then u64 else 0)
    ensures !key.BytesValue? ==> Int64(Stored(a, key, Int64Value(i64)), key) == Ok(if Comparable(key) then i64 else 0)
    ensures !key.BytesValue? ==> Int(Stored(a, key, IntValue(i)), key) == Ok(if Comparable(key) then i else 0)
    ensures !key.BytesValue? ==> Float32(Stored(a, key, Float32Value(f32)), key) == Ok(if Comparable(key) then f32 else 0)
    ensures !key.BytesValue? ==> Float64(Stored(a, key, Float64Value(f64)), key) == Ok(if Comparable(key) then f64 else 0)
    ensures !key.BytesValue? ==> Bool(Stored(a, key, BoolValue(b)), key) == Ok(Comparable(key) && b)
    ensures !key.BytesValue? ==> String(Stored(a, key, StringValue(s)), key) == Ok(if Comparable(key) then s else "")
  {
    if !key.BytesValue? {
      ReadBackIntegers(a, key, u32, i32, u64);
      ReadBackWide(a, key, i64, i, f32);
      ReadBackOthers(a, key, f64, b, s);
    }
  }

  lemma ReadBackIntegers(a: Attachment, key: Value, u32: uint32, i32: int32, u64: uint64)
    requires !key.BytesValue?
    ensures UInt32(Stored(a, key, UInt32Value(u32)), key) == Ok(if Comparable(key) then u32 else 0)
    ensures Int32(Stored(a, key, Int32Value(i32)), key) == Ok(if Comparable(key) then i32 else 0)
    ensures UInt64(Stored(a, key, UInt64Value(u64)), key) == Ok(if Comparable(key) then u64 else 0)
  {
    ReadBack(a, key, UInt32Value(u32));
    ReadBack(a, key, Int32Value(i32));
    ReadBack(a, key, UInt64Value(u64));
  }

  lemma ReadBackWide(a: Attachment, key: Value, i64: int64, i: int64, f32: uint32)
    requires !key.BytesValue?
    ensures Int64(Stored(a, key, Int64Value(i64)), key) == Ok(if Comparable(key) then i64 else 0)
    ensures Int(Stored(a, key, IntValue(i)), key) == Ok(if Comparable(key) then i else 0)
    ensures Float32(Stored(a, key, Float32Value(f32)), key) == Ok(if Comparable(key) then f32 else 0)
  {
    ReadBack(a, key, Int64Value(i64));
    ReadBack(a, key, IntValue(i));
    ReadBack(a, key, Float32Value(f32));
  }

  lemma ReadBackOthers(a: Attachment, key: Value, f64: uint64, b: bool, s: string)
    requires !key.BytesValue?
    ensures Float64(Stored(a, key, Float64Value(f64)), key) == Ok(if Comparable(key) then f64 else 0)
    ensures Bool(Stored(a, key, BoolValue(b)), key) == Ok(Comparable(key) && b)
    ensures String(Stored(a, key, StringValue(s)), key) == Ok(if Comparable(key) then s else "")
  {
    ReadBack(a, key, Float64Value(f64));
    ReadBack(a, key, BoolValue(b));
    ReadBack(a, key, StringValue(s));
  }

  /** What Get2 of the key just put returns, as the getters see it. */
  lemma ReadBack(a: Attachment, key: Value, value: Value)
    requires !key.BytesValue?
    ensures var g := Get2(Stored(a, key, value), key);
      g.Ok? && g.value == if Comparable(key) then (value, true) else (NilValue, false)
  {
    PutThenGetSame(a, key, value);
  }

  /** There is no numeric conversion: a value of another dynamic type reads
      as zero, even when it holds the same number. */
  lemma NoConversion(a: Attachment, key: Value, v: Value)
    ensures !key.BytesValue? && !v.Int64Value? ==> Int64(Stored(a, key, v), key) == Ok(0)
    ensures !key.BytesValue? && !v.IntValue? ==> Int(Stored(a, key, v), key) == Ok(0)
    ensures !key.BytesValue? && !v.Int32Value? ==> Int32(Stored(a, key, v), key) == Ok(0)
    ensures !key.BytesValue? && !v.UInt32Value? ==> UInt32(Stored(a, key, v), key) == Ok(0)
    ensures !key.BytesValue? && !v.UInt64Value? ==> UInt64(Stored(a, key, v), key) == Ok(0)
    ensures !key.BytesValue? && !v.BoolValue? ==> Bool(Stored(a, key, v), key) == Ok(false)
    ensures !key.BytesValue? && !v.StringValue? ==> String(Stored(a, key, v), key) == Ok("")
  {
  }

  /** A missing key reads as the zero value of every getter. */
  lemma MissingKeyIsZero(a: Attachment, key: Value)
    requires !key.BytesValue? && !Present(a, key)
    ensures Get1(a, key) == Ok(NilValue)
    ensures UInt32(a, key) == Ok(0) && Int32(a, key) == Ok(0) && UInt64(a, key) == Ok(0)
    ensures Int64(a, key) == Ok(0) && Int(a, key) == Ok(0)
    ensures Float32(a, key) == Ok(0) && Float64(a, key) == Ok(0)
    ensures Bool(a, key) == Ok(false) && String(a, key) == Ok("")
  {
  }
}
