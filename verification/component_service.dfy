/** component/service.go: NewService and ExtractHandler. A component is
    described by what reflection reports about it. */
module ComponentService {
  import opened Wrappers
  import opened Values
  import opened ComponentMethod
  import opened ComponentOptions

  /** A registered component: the printed type (s.Type.String()), the name
      of the type behind the pointer ("" for an unnamed type), an identity
      for the receiver value, the method set of its type and the method set
      of a pointer to it. */
  datatype Component = Component(
    typeString: string,
    typeName: string,
    receiver: nat,
    methods: seq<Method>,
    ptrMethods: seq<Method>)

  datatype Service = Service(name: string, comp: Component, handlers: map<string, Handler>, options: Options)

  /** NewService: apply the options in order; the name is the option name
      if non-empty, otherwise the type name. */
  function NewService(comp: Component, setters: seq<Setter>): (s: Service)
    ensures LastName(setters).Some? && LastName(setters).value != "" ==> s.name == LastName(setters).value
    ensures LastName(setters).None? || LastName(setters).value == "" ==> s.name == comp.typeName
    ensures s.options.nameFunc == LastNameFunc(setters).GetOr(None)
    ensures s.comp == comp && s.handlers == map[]
  {
    var options := ApplyAll(setters, NoOptions);
    LaterSettersWin(setters, NoOptions);
    Service(if options.name != "" then options.name else comp.typeName, comp, map[], options)
  }

  predicate HasHandlerMethod(ms: seq<Method>) {
    exists i :: 0 <= i < |ms| && IsHandlerMethod(ms[i])
  }

  const NoHandlersSuffix: string := " has no exported methods of handler type"
  const PointerHint: string := " (hint: pass a pointer to value of that type)"

  /** The table with every handler bound to the service's receiver. */
  function Bind(table: map<string, Handler>, receiver: nat): (r: map<string, Handler>)
    ensures r.Keys == table.Keys
    ensures forall k :: k in r ==> r[k] == table[k].(receiver := Some(receiver))
  {
    map k | k in table :: table[k].(receiver := Some(receiver))
  }

  /** The suitable table is empty exactly when no method is accepted. */
  lemma EmptyIffNoHandlerMethod(ms: seq<Method>, nameFunc: Option<string -> string>, r: map<string, Handler>)
    requires forall k :: k in r <==> InstalledAfter(ms, nameFunc, 0, k)
    ensures |r| == 0 <==> !HasHandlerMethod(ms)
  {
    if HasHandlerMethod(ms) {
      var i :| 0 <= i < |ms| && IsHandlerMethod(ms[i]);
      assert HandlerKey(nameFunc, ms[i].name) in r;
    }
  }

  /** ExtractHandler: refuse unnamed and unexported types and types without
      handlers; otherwise install the handlers, bound to the receiver. */
  method ExtractHandler(s: Service) returns (s': Service, err: Option<GoError>)
    ensures s.comp.typeName == "" ==> err == Some(Failure("no service name for type " + s.comp.typeString))
    ensures s.comp.typeName != "" && !IsExported(s.comp.typeName) ==>
      err == Some(Failure("type " + s.comp.typeName + " is not exported"))
    ensures err.None? <==> IsExported(s.comp.typeName) && HasHandlerMethod(s.comp.methods)
    ensures IsExported(s.comp.typeName) && !HasHandlerMethod(s.comp.methods) ==>
      err == Some(Failure("type " + s.name + NoHandlersSuffix
                          + (if HasHandlerMethod(s.comp.ptrMethods) then PointerHint else "")))
    ensures err.None? ==>
      && s' == s.(handlers := s'.handlers)
      && (forall k :: k in s'.handlers <==> InstalledAfter(s.comp.methods, s.options.nameFunc, 0, k))
      && (forall k :: k in s'.handlers ==> s'.handlers[k].receiver == Some(s.comp.receiver))
      && (forall k :: k in s'.handlers ==>
            (exists i: nat :: WinsKey(s.comp.methods, s.options.nameFunc, i, k)
               && s'.handlers[k] == NewHandler(s.comp.methods[i]).(receiver := Some(s.comp.receiver))))
  {
    var typeName := s.comp.typeName;
    if typeName == "" {
      return s, Some(Failure("no service name for type " + s.comp.typeString));
    }
    if !IsExported(typeName) {
      return s, Some(Failure("type " + typeName + " is not exported"));
    }
    var table := SuitableHandlerMethods(s.comp.methods, s.options.nameFunc);
    EmptyIffNoHandlerMethod(s.comp.methods, s.options.nameFunc, table);
    if |table| == 0 {
      var viaPointer := SuitableHandlerMethods(s.comp.ptrMethods, s.options.nameFunc);
      EmptyIffNoHandlerMethod(s.comp.ptrMethods, s.options.nameFunc, viaPointer);
      var str := "";
      if |viaPointer| != 0 {
        str := "type " + s.name + NoHandlersSuffix + PointerHint;
      } else {
        str := "type " + s.name + NoHandlersSuffix;
      }
      assert "type " + s.name + NoHandlersSuffix + "" == "type " + s.name + NoHandlersSuffix;
      return s.(handlers := table), Some(Failure(str));
    }
    s' := s.(handlers := Bind(table, s.comp.receiver));
    err := None;
  }
}
