/** The depth-first topological sort behind `CompositionManifest::service_order`. */
module DependencyOrder {
  import opened Prelude
  import opened Text

  /** Each service with its `depends_on` list, in declared order. */
  type Graph = map<string, seq<string>>

  /** Every dependency names a service. Rust indexes `services[name]`, so this
      is what the walk demands of its caller; `validate` establishes it. */
  predicate Closed(g: Graph) {
    forall n :: n in g ==> forall d :: d in g[n] ==> d in g
  }

  predicate Edge(g: Graph, n: string, d: string) {
    n in g && d in g[n]
  }

  predicate IsPath(g: Graph, p: seq<string>) {
    p != [] && forall i :: 0 <= i < |p| - 1 ==> Edge(g, p[i], p[i + 1])
  }

  ghost predicate Reaches(g: Graph, a: string, b: string) {
    exists p :: IsPath(g, p) && p[0] == a && p[|p| - 1] == b
  }

  ghost predicate OnCycle(g: Graph, n: string) {
    exists p :: IsPath(g, p) && |p| >= 2 && p[0] == n && p[|p| - 1] == n
  }

  ghost predicate Cyclic(g: Graph) {
    exists n :: OnCycle(g, n)
  }

  // ----- The walk, as a function -----

  /** The three mutable collections `visit` works on. */
  datatype Walk = Walk(visiting: set<string>, visited: set<string>, output: seq<string>)

  /** The walk from one service; the error is the service found on the stack. */
  function Visit(g: Graph, name: string, w: Walk): (r: Result<Walk, string>)
    requires Closed(g) && name in g && w.visiting <= g.Keys
    ensures r.Ok? ==> r.value.visiting == w.visiting
    decreases g.Keys - w.visiting, 0
  {
    if name in w.visited then
      Ok(w)
    else if name in w.visiting then
      Err(name)
    else
      var done :- VisitAll(g, g[name], w.(visiting := w.visiting + {name}));
      Ok(Walk(done.visiting - {name}, done.visited + {name}, done.output + [name]))
  }

  function VisitAll(g: Graph, names: seq<string>, w: Walk): (r: Result<Walk, string>)
    requires Closed(g) && (forall n :: n in names ==> n in g) && w.visiting <= g.Keys
    ensures r.Ok? ==> r.value.visiting == w.visiting
    decreases g.Keys - w.visiting, |names| + 1
  {
    if names == [] then
      Ok(w)
    else
      var next :- Visit(g, names[0], w);
      VisitAll(g, names[1..], next)
  }

  lemma VisitAllNext(g: Graph, names: seq<string>, i: nat, w: Walk)
    requires Closed(g) && (forall n :: n in names ==> n in g) && w.visiting <= g.Keys && i < |names|
    ensures VisitAll(g, names[i..], w)
            == match Visit(g, names[i], w)
               case Ok(next) => VisitAll(g, names[i + 1..], next)
               case Err(e) => Err(e)
  {
    DropNext(names, i);
  }

  const EMPTY_WALK := Walk({}, {}, [])

  function CycleError(name: string): CliError {
    CliError(Validation, "dependency_cycle", "service dependency cycle includes " + name)
  }

  /** `service_order` as a function of the graph. */
  function Order(g: Graph): Result<seq<string>, CliError>
    requires Closed(g)
  {
    SortedMembers(g.Keys);
    match VisitAll(g, SortedKeys(g.Keys), EMPTY_WALK)
    case Ok(w) => Ok(w.output)
    case Err(name) => Err(CycleError(name))
  }

  // ----- The walk, as the source runs it -----

  /** The collections that `service_order` hands down as `&mut`. */
  class OrderWalk {
    var visiting: set<string>
    var visited: set<string>
    var output: seq<string>

    constructor ()
      ensures State() == EMPTY_WALK
    {
      visiting, visited, output := {}, {}, [];
    }

    function State(): Walk
      reads this
    {
      Walk(visiting, visited, output)
    }

    method VisitService(g: Graph, name: string) returns (r: Result<Unit, string>)
      requires Closed(g) && name in g && visiting <= g.Keys
      modifies this
      ensures r.Ok? <==> Visit(g, name, old(State())).Ok?
      ensures r.Ok? ==> Ok(State()) == Visit(g, name, old(State()))
      ensures r.Err? ==> Err(r.error) == Visit(g, name, old(State()))
      decreases g.Keys - visiting
    {
      if name in visited {
        return Ok(Unit);
      }
      if name in visiting {
        return Err(name);
      }
      visiting := visiting + {name};
      ghost var entered := State();
      var dependencies := g[name];
      var i := 0;
      while i < |dependencies|
        invariant 0 <= i <= |dependencies|
        invariant visiting == entered.visiting
        invariant VisitAll(g, dependencies, entered) == VisitAll(g, dependencies[i..], State())
      {
        VisitAllNext(g, dependencies, i, State());
        var step := VisitService(g, dependencies[i]);
        if step.Err? {
          return step;
        }
        i := i + 1;
      }
      visiting := visiting - {name};
      visited := visited + {name};
      output := output + [name];
      return Ok(Unit);
    }
  }

  method ServiceOrder(g: Graph) returns (r: Result<seq<string>, CliError>)
    requires Closed(g)
    ensures r == Order(g)
  {
    var walk := new OrderWalk();
    var names := KeysInOrder(g.Keys);
    OnTrackAtStart(g, names);
    var i := 0;
    while i < |names|
      invariant 0 <= i <= |names|
      invariant OnTrack(g, names, i, walk.State())
    {
      OnTrackNext(g, names, i, walk.State());
      var step := walk.VisitService(g, names[i]);
      if step.Err? {
        return Err(CycleError(step.error));
      }
      i := i + 1;
    }
    OnTrackAtEnd(g, names, walk.State());
    return Ok(walk.output);
  }

  /** Walking the rest of the names from here ends as walking all of them does. */
  ghost predicate OnTrack(g: Graph, names: seq<string>, i: nat, w: Walk) {
    && Closed(g) && i <= |names| && (forall n :: n in names ==> n in g) && w.visiting == {}
    && VisitAll(g, names, EMPTY_WALK) == VisitAll(g, names[i..], w)
  }

  lemma OnTrackAtStart(g: Graph, names: seq<string>)
    requires Closed(g) && forall n :: n in names ==> n in g
    ensures OnTrack(g, names, 0, EMPTY_WALK)
  {
    TakeDrop(names, 0);
    assert names[0..] == names;
  }

  lemma OnTrackNext(g: Graph, names: seq<string>, i: nat, w: Walk)
    requires OnTrack(g, names, i, w) && i < |names|
    ensures match Visit(g, names[i], w)
            case Ok(next) => OnTrack(g, names, i + 1, next)
            case Err(e) => VisitAll(g, names, EMPTY_WALK) == Err(e)
  {
    VisitAllNext(g, names, i, w);
  }

  lemma OnTrackAtEnd(g: Graph, names: seq<string>, w: Walk)
    requires OnTrack(g, names, |names|, w)
    ensures VisitAll(g, names, EMPTY_WALK) == Ok(w)
  {
    assert names[|names|..] == [];
  }
}
