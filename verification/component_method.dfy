/** component/method.go: which methods of a component are handlers, and the
    handler table built from them. Methods are described by their reflect
    signature: index 0 of `ins` is the receiver. */
module ComponentMethod {
  import opened Wrappers
  import opened Values
  import opened Protocol

  /** A reflect.Method: name, PkgPath (empty for exported methods), the
      parameter and result types, and an identity for the method stub. */
  datatype Method = Method(name: string, pkgPath: string, ins: seq<Type>, outs: seq<Type>, stub: nat)

  /** component.Handler (declared in component/service.go). `receiver` is the
      zero reflect.Value (None) until ExtractHandler fills it in. */
  datatype Handler = Handler(
    receiver: Option<nat>,
    methodStub: Method,
    argType: Option<Type>,
    isRawArg: bool,
    messageType: MsgType)

  /** isExported: the first character is an upper-case letter. Only ASCII
      letters are recognised here. */
  predicate IsExported(name: string) {
    |name| > 0 && 'A' <= name[0] <= 'Z'
  }

  predicate IsPointer(t: Type) {
    t.PointerType?
  }

  /** isHandlerMethod, check by check. */
  predicate IsHandlerMethod(m: Method) {
    && m.pkgPath == ""
    && (|m.ins| == 2 || |m.ins| == 3)
    && ImplementsContext(m.ins[1])
    && (|m.ins| == 3 ==> IsPointer(m.ins[2]) || m.ins[2] == BytesType)
    && (|m.outs| == 0 || |m.outs| == 2)
    && (|m.outs| == 2 ==> m.outs[1] == ErrorType && (m.outs[0] == BytesType || IsPointer(m.outs[0])))
  }

  /** Every shape the doc comment of ExtractHandler promises is accepted:
      receiver and context, an optional []byte or pointer argument, and no
      results or a []byte or pointer result followed by an error. */
  lemma AcceptedShapes(name: string, recv: Type, ctx: Type, arg: Type, res: Type, stub: nat)
    requires ImplementsContext(ctx)
    requires arg == BytesType || arg.PointerType?
    requires res == BytesType || res.PointerType?
    ensures IsHandlerMethod(Method(name, "", [recv, ctx], [], stub))
    ensures IsHandlerMethod(Method(name, "", [recv, ctx, arg], [], stub))
    ensures IsHandlerMethod(Method(name, "", [recv, ctx], [res, ErrorType], stub))
    ensures IsHandlerMethod(Method(name, "", [recv, ctx, arg], [res, ErrorType], stub))
  {
  }

  /** Each shape the check turns down, one refusal per test in
      isHandlerMethod. */
  lemma RefusedShapes(m: Method)
    ensures m.pkgPath != "" ==> !IsHandlerMethod(m)
    ensures |m.ins| < 2 || |m.ins| > 3 ==> !IsHandlerMethod(m)
    ensures |m.ins| == 3 && !m.ins[2].PointerType? && m.ins[2] != BytesType ==> !IsHandlerMethod(m)
    ensures |m.outs| == 1 || |m.outs| > 2 ==> !IsHandlerMethod(m)
    ensures |m.outs| == 2 && m.outs[1] != ErrorType ==> !IsHandlerMethod(m)
    ensures |m.outs| == 2 && !m.outs[0].PointerType? && m.outs[0] != BytesType ==> !IsHandlerMethod(m)
  {
  }

  /** A method with a context that is not the second parameter is refused. */
  lemma ContextMustComeSecond(m: Method)
    requires |m.ins| >= 2 && !ImplementsContext(m.ins[1])
    ensures !IsHandlerMethod(m)
  {
  }

  /** A context parameter may be a pointer whose method set implements
      context.Context, and the argument and result may be named pointer
      types: all of these have Kind() == reflect.Ptr or pass Implements. */
  lemma PointerContextAccepted(recv: string, ctx: string, arg: string, res: string, stub: nat)
    ensures IsHandlerMethod(Method("Hello", "",
      [PointerType(recv, false), PointerType(ctx, true), PointerType(arg, false)],
      [PointerType(res, false), ErrorType], stub))
    ensures !IsHandlerMethod(Method("Hello", "",
      [PointerType(recv, false), PointerType(ctx, false), PointerType(arg, false)],
      [PointerType(res, false), ErrorType], stub))
  {
  }

  /** The key under which a method is installed: nameFunc(name) if set. */
  function HandlerKey(nameFunc: Option<string -> string>, name: string): string {
    if nameFunc.Some? then nameFunc.value(name) else name
  }

  /** The handler built for an accepted method. */
  function NewHandler(m: Method): (h: Handler)
    requires IsHandlerMethod(m)
    ensures h.isRawArg <==> |m.ins| == 3 && m.ins[2] == BytesType
    ensures h.argType.Some? <==> |m.ins| == 3
    ensures h.argType.Some? ==> h.argType.value == m.ins[2]
    ensures h.messageType == Notify <==> m.outs == []
    ensures h.messageType == Notify || h.messageType == Request
    ensures h.methodStub == m && h.receiver.None?
  {
    Handler(None, m,
      if |m.ins| == 3 then Some(m.ins[2]) else None,
      |m.ins| == 3 && m.ins[2] == BytesType,
      if |m.outs| == 0 then Notify else Request)
  }

  /** Some accepted method among ms[lo..] is installed under key k. */
  predicate InstalledAfter(ms: seq<Method>, nameFunc: Option<string -> string>, lo: nat, k: string) {
    exists j :: lo <= j < |ms| && IsHandlerMethod(ms[j]) && HandlerKey(nameFunc, ms[j].name) == k
  }

  /** ms[i] is the last accepted method installed under key k. */
  predicate WinsKey(ms: seq<Method>, nameFunc: Option<string -> string>, i: nat, k: string) {
    && i < |ms| && IsHandlerMethod(ms[i]) && HandlerKey(nameFunc, ms[i].name) == k
    && !InstalledAfter(ms, nameFunc, i + 1, k)
  }

  /** Reference definition: the table after installing ms in order. */
  function Suitable(ms: seq<Method>, nameFunc: Option<string -> string>): map<string, Handler>
    decreases |ms|
  {
    if ms == [] then map[]
    else
      var r := Suitable(ms[..|ms| - 1], nameFunc);
      var last := ms[|ms| - 1];
      if IsHandlerMethod(last) then r[HandlerKey(nameFunc, last.name) := NewHandler(last)] else r
  }

  /** A key is in the table exactly when some accepted method maps to it. */
  lemma {:induction false} SuitableDomain(ms: seq<Method>, nameFunc: Option<string -> string>, k: string)
    ensures k in Suitable(ms, nameFunc) <==> InstalledAfter(ms, nameFunc, 0, k)
    decreases |ms|
  {
    if ms != [] {
      var p := ms[..|ms| - 1];
      SuitableDomain(p, nameFunc, k);
      if InstalledAfter(p, nameFunc, 0, k) {
        var j :| 0 <= j < |p| && IsHandlerMethod(p[j]) && HandlerKey(nameFunc, p[j].name) == k;
        assert ms[j] == p[j];
      }
      if InstalledAfter(ms, nameFunc, 0, k) {
        var j :| 0 <= j < |ms| && IsHandlerMethod(ms[j]) && HandlerKey(nameFunc, ms[j].name) == k;
        if j < |p| {
          assert p[j] == ms[j];
        }
      }
    }
  }

  /** The handler under a key is the one built from the last accepted method
      with that key. */
  lemma {:induction false} SuitableWinner(ms: seq<Method>, nameFunc: Option<string -> string>, k: string)
    requires k in Suitable(ms, nameFunc)
    ensures exists i: nat :: WinsKey(ms, nameFunc, i, k) && Suitable(ms, nameFunc)[k] == NewHandler(ms[i])
    decreases |ms|
  {
    var n := |ms|;
    var p := ms[..n - 1];
    var last := ms[n - 1];
    assert ms[..|ms| - 1] == p;
    if IsHandlerMethod(last) && HandlerKey(nameFunc, last.name) == k {
      assert Suitable(ms, nameFunc)[k] == NewHandler(last);
      assert WinsKey(ms, nameFunc, n - 1, k);
    } else {
      assert k in Suitable(p, nameFunc) && Suitable(ms, nameFunc)[k] == Suitable(p, nameFunc)[k];
      SuitableWinner(p, nameFunc, k);
      var i: nat :| WinsKey(p, nameFunc, i, k) && Suitable(p, nameFunc)[k] == NewHandler(p[i]);
      assert ms[i] == p[i];
      assert !InstalledAfter(ms, nameFunc, i + 1, k) by {
        forall j | i + 1 <= j < n && IsHandlerMethod(ms[j])
          ensures HandlerKey(nameFunc, ms[j].name) != k
        {
          if j < n - 1 {
            assert ms[j] == p[j];
          }
        }
      }
      assert WinsKey(ms, nameFunc, i, k);
    }
  }

  /** suitableHandlerMethods: every accepted method is installed under its
      key, in method order, so a later method wins a key collision. */
  method SuitableHandlerMethods(ms: seq<Method>, nameFunc: Option<string -> string>)
    returns (r: map<string, Handler>)
    ensures forall k :: k in r <==> InstalledAfter(ms, nameFunc, 0, k)
    ensures forall k :: k in r ==> exists i: nat :: WinsKey(ms, nameFunc, i, k) && r[k] == NewHandler(ms[i])
  {
    r := map[];
    var m := 0;
    while m < |ms|
      invariant 0 <= m <= |ms|
      invariant r == Suitable(ms[..m], nameFunc)
    {
      var me := ms[m];
      if IsHandlerMethod(me) {
        var mn := HandlerKey(nameFunc, me.name);
        r := r[mn := NewHandler(me)];
      }
      assert ms[..m + 1][..m] == ms[..m];
      m := m + 1;
    }
    assert ms[..m] == ms;
    forall k
      ensures k in r <==> InstalledAfter(ms, nameFunc, 0, k)
      ensures k in r ==> exists i: nat :: WinsKey(ms, nameFunc, i, k) && r[k] == NewHandler(ms[i])
    {
      SuitableDomain(ms, nameFunc, k);
      if k in r {
        SuitableWinner(ms, nameFunc, k);
      }
    }
  }
}
