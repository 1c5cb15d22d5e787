/** service/util.go: GetHandler, the route-table lookup by a route's short
    form. */
module ServiceUtil {
  import opened Wrappers
  import opened Values
  import opened Protocol
  import opened ComponentMethod
  import opened ComponentOptions
  import opened ComponentService
  import opened ServiceHandler

  function GetHandler(codecs: Codecs, routes: map<string, Handler>, rt: Route): (r: Result<Handler, GoError>)
    ensures r.Ok? <==> codecs.short(rt) in routes
    ensures r.Ok? ==> r.value == routes[codecs.short(rt)]
    ensures r.Err? ==> r.error == Failure("pitaya/handler: " + codecs.routeString(rt) + " not found")
  {
    if codecs.short(rt) in routes then Ok(routes[codecs.short(rt)])
    else Err(Failure("pitaya/handler: " + codecs.routeString(rt) + " not found"))
  }

  /** Lookup sees only the short form: routes with the same short form find
      the same handler. */
  lemma SameShortSameHandler(codecs: Codecs, routes: map<string, Handler>, rt1: Route, rt2: Route)
    requires codecs.short(rt1) == codecs.short(rt2)
    ensures GetHandler(codecs, routes, rt1).Ok? == GetHandler(codecs, routes, rt2).Ok?
    ensures GetHandler(codecs, routes, rt1).Ok? ==> GetHandler(codecs, routes, rt1) == GetHandler(codecs, routes, rt2)
  {
  }

  /** A method installed under some key means the type has a handler. */
  lemma InstalledHasHandler(ms: seq<Method>, nameFunc: Option<string -> string>, k: string)
    requires InstalledAfter(ms, nameFunc, 0, k)
    ensures HasHandlerMethod(ms)
  {
  }

  /** After a successful Register, every handler of the new service is found
      under "<service>.<handler>", bound to the component's receiver. */
  method RegisterThenLookup(codecs: Codecs, reg: Registry, comp: Component, setters: seq<Setter>, handlerName: string, rt: Route)
    returns (reg': Registry, found: Result<Handler, GoError>)
    requires codecs.short(rt) == RouteOf(NewService(comp, setters).name, handlerName)
    ensures reg'.routes.Keys >= reg.routes.Keys
    ensures found == GetHandler(codecs, reg'.routes, rt)
    ensures NewService(comp, setters).name !in reg.services && IsExported(comp.typeName)
            && InstalledAfter(comp.methods, LastNameFunc(setters).GetOr(None), 0, handlerName) ==>
      && found.Ok?
      && found.value.receiver == Some(comp.receiver)
  {
    var err;
    reg', err := Register(reg, comp, setters);
    found := GetHandler(codecs, reg'.routes, rt);
    var name := NewService(comp, setters).name;
    if name !in reg.services && IsExported(comp.typeName)
       && InstalledAfter(comp.methods, LastNameFunc(setters).GetOr(None), 0, handlerName) {
      InstalledHasHandler(comp.methods, LastNameFunc(setters).GetOr(None), handlerName);
      var handlers := reg'.services[name].handlers;
      assert handlerName in handlers;
      assert reg'.routes[RouteOf(name, handlerName)] == handlers[handlerName];
    }
  }
}
