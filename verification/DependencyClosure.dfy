/** The second depth-first walk: the dependency closure of an action's service,
    collected by `action_gpu_bindings` with a single `visited` set. */
module DependencyClosure {
  import opened Text
  import opened DependencyOrder
  import opened DependencyOrderTheory

  datatype Seen = Seen(visited: set<string>, output: seq<string>)

  function Collect(g: Graph, name: string, s: Seen): (r: Seen)
    requires Closed(g) && name in g && s.visited <= g.Keys
    ensures s.visited <= r.visited <= g.Keys
    decreases g.Keys - s.visited, 0
  {
    if name in s.visited then
      s
    else
      var done := CollectAll(g, g[name], s.(visited := s.visited + {name}));
      done.(output := done.output + [name])
  }

  function CollectAll(g: Graph, names: seq<string>, s: Seen): (r: Seen)
    requires Closed(g) && (forall n :: n in names ==> n in g) && s.visited <= g.Keys
    ensures s.visited <= r.visited <= g.Keys
    decreases g.Keys - s.visited, |names| + 1
  {
    if names == [] then
      s
    else
      var next := Collect(g, names[0], s);
      assert g.Keys - next.visited <= g.Keys - s.visited;
      CollectAll(g, names[1..], next)
  }

  const NOTHING_SEEN := Seen({}, [])

  /** The dependency closure of `root`, in the order the source lists it. */
  function Closure(g: Graph, root: string): seq<string>
    requires Closed(g) && root in g
  {
    Collect(g, root, NOTHING_SEEN).output
  }

  /** The two collections handed down as `&mut`. */
  class ClosureWalk {
    var visited: set<string>
    var output: seq<string>

    constructor ()
      ensures State() == NOTHING_SEEN
    {
      visited, output := {}, [];
    }

    function State(): Seen
      reads this
    {
      Seen(visited, output)
    }

    method CollectService(g: Graph, name: string)
      requires Closed(g) && name in g && visited <= g.Keys
      modifies this
      ensures State() == Collect(g, name, old(State()))
      decreases g.Keys - visited
    {
      if name in visited {
        return;
      }
      visited := visited + {name};
      ghost var entered := State();
      var dependencies := g[name];
      var i := 0;
      while i < |dependencies|
        invariant 0 <= i <= |dependencies|
        invariant entered.visited <= visited <= g.Keys
        invariant CollectAll(g, dependencies, entered) == CollectAll(g, dependencies[i..], State())
      {
        assert dependencies[i..][0] == dependencies[i] && dependencies[i..][1..] == dependencies[i + 1..];
        CollectService(g, dependencies[i]);
        i := i + 1;
      }
      output := output + [name];
    }
  }

  method CollectClosure(g: Graph, root: string) returns (closure: seq<string>)
    requires Closed(g) && root in g
    ensures closure == Closure(g, root)
  {
    var walk := new ClosureWalk();
    walk.CollectService(g, root);
    closure := walk.output;
  }

  // ----- The closure is exactly what the root reaches -----

  /** What a walk adds to `s`: fresh names, each once, each reachable from
      `from`, with all dependencies seen. */
  ghost predicate Adds(g: Graph, from: string, s: Seen, r: Seen) {
    && s.output <= r.output
    && var added := r.output[|s.output|..];
    && NoDuplicates(added)
    && Elements(added) == r.visited - s.visited
    && forall n :: n in added ==> n in g && Reaches(g, from, n) && forall d :: d in g[n] ==> d in r.visited
  }

  lemma ReachesItself(g: Graph, n: string)
    ensures Reaches(g, n, n)
  {
    assert IsPath(g, [n]);
  }

  lemma ReachesThrough(g: Graph, a: string, b: string, c: string)
    requires Edge(g, a, b) && Reaches(g, b, c)
    ensures Reaches(g, a, c)
  {
    var p :| IsPath(g, p) && p[0] == b && p[|p| - 1] == c;
    var q := [a] + p;
    forall i | 0 <= i < |q| - 1
      ensures Edge(g, q[i], q[i + 1])
    {
      if i > 0 {
        assert Edge(g, p[i - 1], p[i]);
      }
    }
    assert IsPath(g, q);
  }

  lemma AddsInSequence(g: Graph, from: string, s: Seen, mid: Seen, r: Seen)
    requires Adds(g, from, s, mid) && Adds(g, from, mid, r)
    requires s.visited <= mid.visited <= r.visited
    ensures Adds(g, from, s, r)
  {
    var first := mid.output[|s.output|..];
    var second := r.output[|mid.output|..];
    var added := r.output[|s.output|..];
    assert added == first + second;
    assert Elements(added) == Elements(first) + Elements(second);
    forall i, j | 0 <= i < j < |added|
      ensures added[i] != added[j]
    {
      if i < |first| <= j {
        assert added[i] in Elements(first) && added[j] in Elements(second);
      }
    }
  }

  lemma AddsOnTop(g: Graph, name: string, s: Seen, done: Seen)
    requires Closed(g) && name in g && name !in s.visited && s.visited <= done.visited
    requires Adds(g, name, s.(visited := s.visited + {name}), done) && name in done.visited
    requires forall d :: d in g[name] ==> d in done.visited
    ensures Adds(g, name, s, done.(output := done.output + [name]))
  {
    var inner := done.output[|s.output|..];
    var all := done.output + [name];
    assert all[|s.output|..] == inner + [name];
    assert forall n :: n in inner ==> n in Elements(inner);
    assert Elements(inner + [name]) == Elements(inner) + {name};
    ReachesItself(g, name);
  }

  lemma {:induction false} CollectAdds(g: Graph, name: string, s: Seen)
    requires Closed(g) && name in g && s.visited <= g.Keys
    ensures Adds(g, name, s, Collect(g, name, s)) && name in Collect(g, name, s).visited
    decreases g.Keys - s.visited, 0
  {
    if name !in s.visited {
      var entered := s.(visited := s.visited + {name});
      forall d | d in g[name]
        ensures Edge(g, name, d)
      {
      }
      CollectAllAdds(g, name, g[name], entered);
      AddsOnTop(g, name, s, CollectAll(g, g[name], entered));
    } else {
      assert Elements(s.output[|s.output|..]) == {};
    }
  }

  lemma {:induction false} CollectAllAdds(g: Graph, from: string, names: seq<string>, s: Seen)
    requires Closed(g) && (forall n :: n in names ==> n in g && Edge(g, from, n)) && s.visited <= g.Keys
    ensures Adds(g, from, s, CollectAll(g, names, s))
    ensures forall n :: n in names ==> n in CollectAll(g, names, s).visited
    decreases g.Keys - s.visited, |names| + 1
  {
    if names == [] {
      assert Elements(s.output[|s.output|..]) == {};
    } else {
      var next := Collect(g, names[0], s);
      assert g.Keys - next.visited <= g.Keys - s.visited;
      CollectAdds(g, names[0], s);
      forall n | n in next.output[|s.output|..]
        ensures Reaches(g, from, n)
      {
        ReachesThrough(g, from, names[0], n);
      }
      CollectAllAdds(g, from, names[1..], next);
      assert names == [names[0]] + names[1..];
      AddsInSequence(g, from, s, next, CollectAll(g, names, s));
    }
  }

  lemma {:induction false} DownwardClosed(g: Graph, seen: set<string>, p: seq<string>)
    requires IsPath(g, p) && p[0] in seen
    requires forall n, d :: n in seen && Edge(g, n, d) ==> d in seen
    ensures p[|p| - 1] in seen
    decreases |p|
  {
    if |p| >= 2 {
      assert Edge(g, p[0], p[1]);
      var rest := p[1..];
      forall k | 0 <= k < |rest| - 1
        ensures Edge(g, rest[k], rest[k + 1])
      {
        assert Edge(g, p[k + 1], p[k + 2]);
      }
      DownwardClosed(g, seen, rest);
    }
  }

  /** On every graph, cyclic or not, the closure lists exactly the services the
      root reaches, each once. */
  lemma ClosureIsReachableSet(g: Graph, root: string)
    requires Closed(g) && root in g
    ensures NoDuplicates(Closure(g, root))
    ensures forall n :: n in Closure(g, root) <==> Reaches(g, root, n)
  {
    CollectAdds(g, root, NOTHING_SEEN);
    var r := Collect(g, root, NOTHING_SEEN);
    assert r.output[0..] == r.output;
    assert r.visited - {} == r.visited;
    assert forall n :: n in r.output <==> n in Elements(r.output);
    forall n | Reaches(g, root, n)
      ensures n in r.output
    {
      var p :| IsPath(g, p) && p[0] == root && p[|p| - 1] == n;
      DownwardClosed(g, r.visited, p);
    }
  }

  // ----- The two walks agree -----

  /** Wherever the two-set walk succeeds, the one-set walk started from the same
      state, with `visiting` and `visited` merged, does the same appends. */
  lemma {:induction false} WalksAgree(g: Graph, name: string, w: Walk)
    requires Closed(g) && name in g && w.visiting <= g.Keys && w.visited <= g.Keys
    ensures Visit(g, name, w).Ok? ==>
              var w' := Visit(g, name, w).value;
              && w'.visited <= g.Keys
              && Collect(g, name, Seen(w.visited + w.visiting, w.output)) == Seen(w'.visited + w'.visiting, w'.output)
    decreases g.Keys - w.visiting, 0
  {
    if name !in w.visited && name !in w.visiting {
      var entered := w.(visiting := w.visiting + {name});
      AllWalksAgree(g, g[name], entered);
      assert entered.visited + entered.visiting == (w.visited + w.visiting) + {name};
      var inner := VisitAll(g, g[name], entered);
      if inner.Ok? {
        var done := inner.value;
        assert (done.visited + {name}) + (done.visiting - {name}) == done.visited + done.visiting;
      }
    }
  }

  lemma {:induction false} AllWalksAgree(g: Graph, names: seq<string>, w: Walk)
    requires Closed(g) && (forall n :: n in names ==> n in g) && w.visiting <= g.Keys && w.visited <= g.Keys
    ensures VisitAll(g, names, w).Ok? ==>
              var w' := VisitAll(g, names, w).value;
              && w'.visited <= g.Keys
              && CollectAll(g, names, Seen(w.visited + w.visiting, w.output))
                 == Seen(w'.visited + w'.visiting, w'.output)
    decreases g.Keys - w.visiting, |names| + 1
  {
    if names != [] {
      WalksAgree(g, names[0], w);
      var first := Visit(g, names[0], w);
      if first.Ok? {
        AllWalksAgree(g, names[1..], first.value);
      }
    }
  }

  ghost predicate ReachesCycle(g: Graph, root: string) {
    exists n :: Reaches(g, root, n) && OnCycle(g, n)
  }

  /** A dependency-first list that holds the root holds everything it reaches. */
  lemma DependencyFirstCovers(g: Graph, root: string, order: seq<string>)
    requires DependencyFirst(g, order) && root in order
    ensures forall n :: Reaches(g, root, n) ==> n in order
  {
    var i :| 0 <= i < |order| && order[i] == root;
    forall n | Reaches(g, root, n)
      ensures n in order
    {
      var p :| IsPath(g, p) && p[0] == root && p[|p| - 1] == n;
      PathGoesDown(g, order, p, i);
    }
  }

  /** The two-set walk from one root fails exactly when the root reaches a cycle. */
  lemma RootedWalkIsExact(g: Graph, root: string)
    requires Closed(g) && root in g
    ensures Visit(g, root, EMPTY_WALK).Err? <==> ReachesCycle(g, root)
    ensures Visit(g, root, EMPTY_WALK).Ok? ==> DependencyFirst(g, Visit(g, root, EMPTY_WALK).value.output)
  {
    assert Good(g, EMPTY_WALK);
    VisitGood(g, root, EMPTY_WALK);
    var r := Visit(g, root, EMPTY_WALK);
    if r.Ok? {
      var order := r.value.output;
      assert root in Elements(order);
      DependencyFirstCovers(g, root, order);
      DependencyFirstIsAcyclic(g, order);
    } else {
      assert Elements<string>([]) == {} && [] + [root] == [root];
      VisitBlame(g, root, EMPTY_WALK, []);
    }
  }

  /** The one-set walk orders the closure dependency-first exactly when the root
      reaches no cycle, and then its list is the two-set walk's, element for
      element; the manifest check therefore decides what the action sees. */
  lemma ClosureAgreesWithOrder(g: Graph, root: string)
    requires Closed(g) && root in g
    ensures DependencyFirst(g, Closure(g, root)) <==> !ReachesCycle(g, root)
    ensures !ReachesCycle(g, root) ==>
              Visit(g, root, EMPTY_WALK).Ok? && Closure(g, root) == Visit(g, root, EMPTY_WALK).value.output
  {
    RootedWalkIsExact(g, root);
    WalksAgree(g, root, EMPTY_WALK);
    assert Seen(EMPTY_WALK.visited + EMPTY_WALK.visiting, EMPTY_WALK.output) == NOTHING_SEEN;
    ClosureIsReachableSet(g, root);
    if DependencyFirst(g, Closure(g, root)) {
      DependencyFirstIsAcyclic(g, Closure(g, root));
    }
  }

  /** A manifest whose `service_order` succeeds gives every action a
      dependency-first closure with the action's service last. */
  lemma ValidatedClosure(g: Graph, root: string)
    requires Closed(g) && root in g && Order(g).Ok?
    ensures DependencyFirst(g, Closure(g, root))
    ensures Closure(g, root) != [] && Closure(g, root)[|Closure(g, root)| - 1] == root
  {
    OrderIsExact(g);
    ClosureAgreesWithOrder(g, root);
  }
}
