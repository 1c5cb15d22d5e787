/** service/handler.go: HandlerService.Register, which records a service
    by name and adds its handlers to the package-wide route table under
    "<service>.<handler>". */
module ServiceHandler {
  import opened Wrappers
  import opened Values
  import opened ComponentMethod
  import opened ComponentOptions
  import opened ComponentService

  /** The services of one HandlerService and the package-level `handlers`
      route table. */
  datatype Registry = Registry(services: map<string, Service>, routes: map<string, Handler>)

  const EmptyRegistry := Registry(map[], map[])

  /** fmt.Sprintf("%s.%s", service, handler). */
  function RouteOf(service: string, handler: string): string {
    service + "." + handler
  }

  /** Two handlers of one service never share a route. */
  lemma RouteOfInjective(service: string)
    ensures forall h1, h2 :: RouteOf(service, h1) == RouteOf(service, h2) ==> h1 == h2
  {
    forall h1, h2 | RouteOf(service, h1) == RouteOf(service, h2)
      ensures h1 == h2
    {
      assert h1 == RouteOf(service, h1)[|service| + 1..];
      assert h2 == RouteOf(service, h2)[|service| + 1..];
    }
  }

  /** The routes a service contributes, whatever order the loop visits its
      handlers in. */
  function ServiceRoutes(s: Service): (r: map<string, Handler>)
    ensures forall k :: k in s.handlers ==> RouteOf(s.name, k) in r && r[RouteOf(s.name, k)] == s.handlers[k]
    ensures forall rt :: rt in r ==> exists k :: k in s.handlers && rt == RouteOf(s.name, k)
  {
    RouteOfInjective(s.name);
    map k | k in s.handlers :: RouteOf(s.name, k) := s.handlers[k]
  }

  const AlreadyDefined: string := "handler: service already defined: "

  /** Register(comp, opts). */
  method Register(reg: Registry, comp: Component, setters: seq<Setter>) returns (reg': Registry, err: Option<GoError>)
    ensures NewService(comp, setters).name in reg.services ==>
      reg' == reg && err == Some(Failure(AlreadyDefined + NewService(comp, setters).name))
    ensures err.Some? ==> reg' == reg
    ensures err.None? <==>
      && NewService(comp, setters).name !in reg.services
      && IsExported(comp.typeName) && HasHandlerMethod(comp.methods)
    ensures err.None? ==>
      var name := NewService(comp, setters).name;
      && name in reg'.services
      && reg'.services == reg.services[name := reg'.services[name]]
      && reg'.services[name].name == name
      && (forall k :: k in reg'.services[name].handlers <==>
            InstalledAfter(comp.methods, LastNameFunc(setters).GetOr(None), 0, k))
      && (forall k :: k in reg'.services[name].handlers ==>
            reg'.services[name].handlers[k].receiver == Some(comp.receiver))
      && reg'.routes == reg.routes + ServiceRoutes(reg'.services[name])
      && reg.routes.Keys <= reg'.routes.Keys
      && (forall k :: k in reg'.services[name].handlers ==>
            reg'.routes[RouteOf(name, k)] == reg'.services[name].handlers[k])
  {
    var s := NewService(comp, setters);
    if s.name in reg.services {
      return reg, Some(Failure(AlreadyDefined + s.name));
    }
    var extracted, e := ExtractHandler(s);
    if e.Some? {
      return reg, e;
    }
    reg' := Registry(reg.services[s.name := extracted], reg.routes + ServiceRoutes(extracted));
    err := None;
  }
}
