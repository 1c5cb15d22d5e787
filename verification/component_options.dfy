/** component/options.go: the options a component is registered with, and
    the two setters. A Go `Option` closure is one case of `Setter`. */
module ComponentOptions {
  import opened Wrappers

  /** options: the service name and the handler renaming function. */
  datatype Options = Options(name: string, nameFunc: Option<string -> string>)

  const NoOptions := Options("", None)

  datatype Setter = WithName(n: string) | WithNameFunc(fn: Option<string -> string>)

  /** Running one setter on the options. */
  function Apply(o: Setter, opts: Options): (r: Options)
    ensures o.WithName? ==> r.name == o.n && r.nameFunc == opts.nameFunc
    ensures o.WithNameFunc? ==> r.nameFunc == o.fn && r.name == opts.name
  {
    match o
    case WithName(n) => opts.(name := n)
    case WithNameFunc(fn) => opts.(nameFunc := fn)
  }

  /** Running setters in order (NewService's loop). */
  function ApplyAll(setters: seq<Setter>, opts: Options): Options
    decreases |setters|
  {
    if setters == [] then opts else ApplyAll(setters[1..], Apply(setters[0], opts))
  }

  /** The name set by the last WithName, if any. */
  function LastName(setters: seq<Setter>): Option<string>
    decreases |setters|
  {
    if setters == [] then None
    else if setters[|setters| - 1].WithName? then Some(setters[|setters| - 1].n)
    else LastName(setters[..|setters| - 1])
  }

  /** The name function set by the last WithNameFunc, if any. */
  function LastNameFunc(setters: seq<Setter>): Option<Option<string -> string>>
    decreases |setters|
  {
    if setters == [] then None
    else if setters[|setters| - 1].WithNameFunc? then Some(setters[|setters| - 1].fn)
    else LastNameFunc(setters[..|setters| - 1])
  }

  /** Setters applied one after another, split at the last one. */
  lemma {:induction false} ApplyAllSnoc(setters: seq<Setter>, opts: Options)
    requires setters != []
    ensures ApplyAll(setters, opts) == Apply(setters[|setters| - 1], ApplyAll(setters[..|setters| - 1], opts))
    decreases |setters|
  {
    if |setters| > 1 {
      ApplyAllSnoc(setters[1..], Apply(setters[0], opts));
      assert setters[1..][..|setters| - 2] == setters[..|setters| - 1][1..];
    }
  }

  /** Later setters override earlier ones, each field independently: the
      result holds the last name and the last name function set, and the
      starting value of a field no setter touched. */
  lemma {:induction false} LaterSettersWin(setters: seq<Setter>, opts: Options)
    ensures ApplyAll(setters, opts).name == LastName(setters).GetOr(opts.name)
    ensures ApplyAll(setters, opts).nameFunc == LastNameFunc(setters).GetOr(opts.nameFunc)
    decreases |setters|
  {
    if setters != [] {
      ApplyAllSnoc(setters, opts);
      LaterSettersWin(setters[..|setters| - 1], opts);
    }
  }
}
