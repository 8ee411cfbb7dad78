/** What `service_order` guarantees: it fails exactly on cyclic graphs, and
    otherwise lists every service once, after all of its dependencies. */
module DependencyOrderTheory {
  import opened Prelude
  import opened Text
  import opened DependencyOrder

  ghost predicate DependencyFirst(g: Graph, order: seq<string>) {
    forall i :: 0 <= i < |order| ==> order[i] in g && forall d :: d in g[order[i]] ==> d in order[..i]
  }

  ghost predicate Topological(g: Graph, order: seq<string>) {
    NoDuplicates(order) && Elements(order) == g.Keys && DependencyFirst(g, order)
  }

  // ----- A successful walk is dependency-first -----

  ghost predicate Good(g: Graph, w: Walk) {
    && Elements(w.output) == w.visited
    && NoDuplicates(w.output)
    && DependencyFirst(g, w.output)
    && w.visiting !! w.visited
  }

  ghost predicate Extends(w: Walk, w': Walk) {
    w.visited <= w'.visited && w.output <= w'.output
  }

  lemma AppendGood(g: Graph, name: string, w: Walk, done: Walk)
    requires Closed(g) && name in g && name !in w.visiting
    requires done.visiting == w.visiting + {name}
    requires Good(g, done) && forall d :: d in g[name] ==> d in done.visited
    ensures Good(g, Walk(done.visiting - {name}, done.visited + {name}, done.output + [name]))
  {
    var out := done.output + [name];
    assert forall d :: d in done.visited ==> d in Elements(done.output);
    assert name !in done.visited;
    assert Elements(out) == done.visited + {name};
    forall i | 0 <= i < |out|
      ensures out[i] in g && forall d :: d in g[out[i]] ==> d in out[..i]
    {
      assert out[..i] == done.output[..i];
      if i == |done.output| {
        assert done.output[..i] == done.output;
      }
    }
  }

  lemma {:induction false} VisitGood(g: Graph, name: string, w: Walk)
    requires Closed(g) && name in g && w.visiting <= g.Keys && Good(g, w)
    ensures Visit(g, name, w).Ok? ==>
              var w' := Visit(g, name, w).value;
              Good(g, w') && Extends(w, w') && name in w'.visited
    decreases g.Keys - w.visiting, 0
  {
    if name !in w.visited && name !in w.visiting {
      var entered := w.(visiting := w.visiting + {name});
      VisitAllGood(g, g[name], entered);
      var inner := VisitAll(g, g[name], entered);
      if inner.Ok? {
        AppendGood(g, name, w, inner.value);
      }
    }
  }

  lemma {:induction false} VisitAllGood(g: Graph, names: seq<string>, w: Walk)
    requires Closed(g) && (forall n :: n in names ==> n in g) && w.visiting <= g.Keys && Good(g, w)
    ensures VisitAll(g, names, w).Ok? ==>
              var w' := VisitAll(g, names, w).value;
              Good(g, w') && Extends(w, w') && forall n :: n in names ==> n in w'.visited
    decreases g.Keys - w.visiting, |names| + 1
  {
    if names != [] {
      VisitGood(g, names[0], w);
      var first := Visit(g, names[0], w);
      if first.Ok? {
        VisitAllGood(g, names[1..], first.value);
        assert names == [names[0]] + names[1..];
      }
    }
  }

  // ----- A failed walk names a service on a cycle -----

  /** The recursion stack, bottom first: the services being visited, each
      depending on the next, the last depending on what is visited now. */
  ghost predicate IsStack(g: Graph, stack: seq<string>, visiting: set<string>, name: string) {
    IsPath(g, stack + [name]) && Elements(stack) == visiting
  }

  lemma StackCloses(g: Graph, stack: seq<string>, visiting: set<string>, name: string)
    requires IsStack(g, stack, visiting, name) && name in visiting
    ensures OnCycle(g, name) && Reaches(g, stack[0], name)
  {
    assert name in Elements(stack);
    var i :| 0 <= i < |stack| && stack[i] == name;
    var whole := stack + [name];
    var cycle := whole[i..];
    forall k | 0 <= k < |cycle| - 1
      ensures Edge(g, cycle[k], cycle[k + 1])
    {
      assert Edge(g, whole[i + k], whole[i + k + 1]);
    }
    assert IsPath(g, cycle) && cycle[0] == name && cycle[|cycle| - 1] == name;
    assert IsPath(g, whole) && whole[0] == stack[0] && whole[|whole| - 1] == name;
  }

  lemma {:induction false} VisitBlame(g: Graph, name: string, w: Walk, stack: seq<string>)
    requires Closed(g) && name in g && w.visiting <= g.Keys
    requires IsStack(g, stack, w.visiting, name)
    ensures Visit(g, name, w).Err? ==>
              var n := Visit(g, name, w).error;
              OnCycle(g, n) && Reaches(g, (stack + [name])[0], n)
    decreases g.Keys - w.visiting, 0
  {
    if name in w.visited {
    } else if name in w.visiting {
      StackCloses(g, stack, w.visiting, name);
    } else {
      var entered := w.(visiting := w.visiting + {name});
      assert Elements(stack + [name]) == entered.visiting;
      VisitAllBlame(g, g[name], entered, stack + [name]);
    }
  }

  lemma {:induction false} VisitAllBlame(g: Graph, names: seq<string>, w: Walk, stack: seq<string>)
    requires Closed(g) && (forall n :: n in names ==> n in g) && w.visiting <= g.Keys
    requires forall n :: n in names ==> IsStack(g, stack, w.visiting, n)
    ensures VisitAll(g, names, w).Err? ==>
              var n := VisitAll(g, names, w).error;
              OnCycle(g, n) && (stack != [] ==> Reaches(g, stack[0], n))
    decreases g.Keys - w.visiting, |names| + 1
  {
    if names != [] {
      VisitBlame(g, names[0], w, stack);
      var first := Visit(g, names[0], w);
      if first.Ok? {
        VisitAllBlame(g, names[1..], first.value, stack);
      }
    }
  }

  // ----- A dependency-first list leaves no room for a cycle -----

  lemma {:induction false} PathGoesDown(g: Graph, order: seq<string>, p: seq<string>, i: nat)
    requires DependencyFirst(g, order) && IsPath(g, p)
    requires i < |order| && order[i] == p[0]
    ensures exists j :: 0 <= j <= i && order[j] == p[|p| - 1] && (|p| >= 2 ==> j < i)
    decreases |p|
  {
    if |p| >= 2 {
      assert Edge(g, p[0], p[1]);
      assert p[1] in order[..i];
      var j :| 0 <= j < i && order[j] == p[1];
      var rest := p[1..];
      forall k | 0 <= k < |rest| - 1
        ensures Edge(g, rest[k], rest[k + 1])
      {
        assert Edge(g, p[k + 1], p[k + 2]);
      }
      PathGoesDown(g, order, rest, j);
    }
  }

  lemma DependencyFirstIsAcyclic(g: Graph, order: seq<string>)
    requires NoDuplicates(order) && DependencyFirst(g, order)
    ensures forall n :: n in order ==> !OnCycle(g, n)
  {
    forall n | n in order
      ensures !OnCycle(g, n)
    {
      if OnCycle(g, n) {
        var p :| IsPath(g, p) && |p| >= 2 && p[0] == n && p[|p| - 1] == n;
        var i :| 0 <= i < |order| && order[i] == n;
        PathGoesDown(g, order, p, i);
      }
    }
  }

  // ----- The theorems -----

  lemma EmptyIsGood(g: Graph)
    ensures Good(g, EMPTY_WALK)
  {
    assert Elements<string>([]) == {};
  }

  /** A good walk that visited every service lists them in topological order. */
  lemma GoodIsTopological(g: Graph, w: Walk)
    requires Good(g, w) && g.Keys <= w.visited
    ensures Topological(g, w.output)
  {
    forall n | n in Elements(w.output)
      ensures n in g
    {
      var i :| 0 <= i < |w.output| && w.output[i] == n;
    }
  }

  lemma SuccessIsTopological(g: Graph)
    requires Closed(g) && Order(g).Ok?
    ensures Topological(g, Order(g).value)
  {
    var names := SortedKeys(g.Keys);
    SortedMembers(g.Keys);
    EmptyIsGood(g);
    VisitAllGood(g, names, EMPTY_WALK);
    GoodIsTopological(g, VisitAll(g, names, EMPTY_WALK).value);
  }

  lemma TopologicalIsAcyclic(g: Graph, order: seq<string>)
    requires Topological(g, order)
    ensures !Cyclic(g)
  {
    DependencyFirstIsAcyclic(g, order);
    forall n | OnCycle(g, n)
      ensures n in Elements(order)
    {
      CycleMembersAreServices(g, n);
    }
    assert forall n :: n in Elements(order) ==> n in order;
  }

  lemma CycleMembersAreServices(g: Graph, n: string)
    requires OnCycle(g, n)
    ensures n in g
  {
    var p :| IsPath(g, p) && |p| >= 2 && p[0] == n && p[|p| - 1] == n;
    assert Edge(g, p[0], p[1]);
  }

  /** The error `dependency_cycle`, naming a service that lies on a cycle. */
  ghost predicate BlamesCycle(g: Graph, error: CliError) {
    exists n :: OnCycle(g, n)
      && error == CliError(Validation, "dependency_cycle", "service dependency cycle includes " + n)
  }

  lemma FailureBlamesCycle(g: Graph)
    requires Closed(g) && Order(g).Err?
    ensures BlamesCycle(g, Order(g).error)
  {
    var names := SortedKeys(g.Keys);
    SortedMembers(g.Keys);
    assert Elements<string>([]) == {};
    forall n | n in names
      ensures IsStack(g, [], {}, n)
    {
      assert [] + [n] == [n];
    }
    VisitAllBlame(g, names, EMPTY_WALK, []);
    assert OnCycle(g, VisitAll(g, names, EMPTY_WALK).error);
  }

  /** `service_order` reports a cycle exactly when there is one, blames a service
      that lies on one, and otherwise returns a topological order of everything. */
  lemma OrderIsExact(g: Graph)
    requires Closed(g)
    ensures Order(g).Err? <==> Cyclic(g)
    ensures Order(g).Err? ==> BlamesCycle(g, Order(g).error)
    ensures Order(g).Ok? ==> Topological(g, Order(g).value)
  {
    if Order(g).Ok? {
      SuccessIsTopological(g);
      TopologicalIsAcyclic(g, Order(g).value);
    } else {
      FailureBlamesCycle(g);
    }
  }

  // ----- When the order is the sorted list -----

  /** Walking the sorted keys when every dependency sorts first: each key is
      appended as it comes, since its dependencies are already there. */
  lemma {:induction false} SortedWalk(g: Graph, names: seq<string>, k: nat)
    requires Closed(g) && StrictlySorted(names) && Elements(names) == g.Keys && k <= |names|
    requires forall n, d :: Edge(g, n, d) ==> LexLess(d, n)
    ensures VisitAll(g, names[k..], Walk({}, Elements(names[..k]), names[..k])) == Ok(Walk({}, Elements(names), names))
    decreases |names| - k
  {
    var w := Walk({}, Elements(names[..k]), names[..k]);
    if k == |names| {
      assert names[..k] == names;
    } else {
      var n := names[k];
      SortedHasNoDuplicates(names);
      assert n in Elements(names);
      assert names[k..][0] == n && names[k..][1..] == names[k + 1..];
      forall d | d in g[n]
        ensures d in w.visited
      {
        assert Edge(g, n, d);
        assert d in Elements(names);
        var i :| 0 <= i < |names| && names[i] == d;
        LexAsymmetric(d, n);
        assert i < k;
        assert names[..k][i] == d;
      }
      AllVisited(g, g[n], w.(visiting := {n}));
      assert names[..k + 1] == names[..k] + [n];
      assert Elements(names[..k + 1]) == Elements(names[..k]) + {n};
      assert {n} - {n} == {} && w.visiting + {n} == {n};
      SortedWalk(g, names, k + 1);
    }
  }

  lemma {:induction false} AllVisited(g: Graph, names: seq<string>, w: Walk)
    requires Closed(g) && (forall n :: n in names ==> n in g) && w.visiting <= g.Keys
    requires forall n :: n in names ==> n in w.visited
    ensures VisitAll(g, names, w) == Ok(w)
    decreases |names|
  {
    if names != [] {
      AllVisited(g, names[1..], w);
    }
  }

  /** The order is the plain sorted list of names exactly when every dependency
      sorts before its dependents. */
  lemma OrderIsLexicographicIff(g: Graph)
    requires Closed(g)
    ensures Order(g) == Ok(SortedKeys(g.Keys)) <==> forall n, d :: Edge(g, n, d) ==> LexLess(d, n)
  {
    var names := SortedKeys(g.Keys);
    if forall n, d :: Edge(g, n, d) ==> LexLess(d, n) {
      SortedWalk(g, names, 0);
      assert names[0..] == names && names[..0] == [];
      assert Elements<string>([]) == {};
    }
    if Order(g) == Ok(names) {
      OrderIsExact(g);
      forall n, d | Edge(g, n, d)
        ensures LexLess(d, n)
      {
        assert n in Elements(names);
        var i :| 0 <= i < |names| && names[i] == n;
        assert d in names[..i];
      }
    }
  }
}
