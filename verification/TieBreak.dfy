/** The documented tie-break of `service_order`, and exactly when the depth-first
    walk keeps it. */
module TieBreak {
  import opened Prelude
  import opened Text
  import opened DependencyOrder
  import opened DependencyOrderTheory
  import opened DependencyClosure

  // ----- The documented order -----

  /** A service that could come next: everything it depends on is listed. */
  predicate Ready(g: Graph, done: seq<string>, n: string) {
    n in g && n !in done && forall d :: d in g[n] ==> d in done
  }

  /** "Topological sort (lexicographic tie-break on service names)": every
      position holds the least of the services that could come next. */
  ghost predicate KeepsTieBreak(g: Graph, order: seq<string>) {
    forall i, n :: 0 <= i < |order| && Ready(g, order[..i], n) ==> LexLessEq(order[i], n)
  }

  ghost predicate LessAt(a: seq<string>, b: seq<string>, i: nat) {
    i < |a| && i < |b| && a[..i] == b[..i] && LexLess(a[i], b[i])
  }

  lemma {:induction false} FirstDifference(a: seq<string>, b: seq<string>)
    requires |a| == |b| && a != b
    ensures exists i: nat :: i < |a| && a[..i] == b[..i] && a[i] != b[i]
  {
    if a[0] != b[0] {
      assert a[..0] == b[..0];
    } else {
      assert a == [a[0]] + a[1..] && b == [b[0]] + b[1..];
      FirstDifference(a[1..], b[1..]);
      var i: nat :| i < |a| - 1 && a[1..][..i] == b[1..][..i] && a[1..][i] != b[1..][i];
      assert a[..i + 1] == [a[0]] + a[1..][..i] && b[..i + 1] == [b[0]] + b[1..][..i];
    }
  }

  lemma NextIsReady(g: Graph, order: seq<string>, i: nat)
    requires Topological(g, order) && i < |order|
    ensures Ready(g, order[..i], order[i])
  {
  }

  /** The tie-break singles out one order: the least topological one. */
  lemma TieBreakIsLeast(g: Graph, order: seq<string>, other: seq<string>)
    requires Topological(g, order) && Topological(g, other) && KeepsTieBreak(g, order)
    ensures order == other || exists i :: LessAt(order, other, i)
  {
    NoDuplicatesCardinality(order);
    NoDuplicatesCardinality(other);
    if order != other {
      FirstDifference(order, other);
      var i: nat :| i < |order| && order[..i] == other[..i] && order[i] != other[i];
      NextIsReady(g, other, i);
      assert LessAt(order, other, i);
    }
  }

  /** A list that can grow into the documented order. */
  ghost predicate Promising(g: Graph, done: seq<string>) {
    NoDuplicates(done) && DependencyFirst(g, done) && KeepsTieBreak(g, done)
  }

  ghost predicate LeastReady(g: Graph, done: seq<string>, n: string) {
    Ready(g, done, n) && forall other :: Ready(g, done, other) ==> LexLessEq(n, other)
  }

  /** The first service of a topological order that is not listed yet is ready. */
  lemma {:induction false} SomeReady(g: Graph, order: seq<string>, done: seq<string>, i: nat) returns (n: string)
    requires DependencyFirst(g, order) && i <= |order|
    requires (forall x :: x in order[..i] ==> x in done) && exists x :: x in order && x !in done
    ensures Ready(g, done, n)
    decreases |order| - i
  {
    if i == |order| {
      TakeAll(order);
      assert false;
      n := "";
    } else if order[i] in done {
      TakeNext(order, i);
      n := SomeReady(g, order, done, i + 1);
    } else {
      n := order[i];
    }
  }

  lemma LeastReadyExists(g: Graph, order: seq<string>, done: seq<string>) returns (n: string)
    requires DependencyFirst(g, order) && exists x :: x in order && x !in done
    ensures LeastReady(g, done, n)
  {
    var some := SomeReady(g, order, done, 0);
    var ready := set x | x in g.Keys && Ready(g, done, x);
    assert some in ready;
    LeastExists(ready);
    n :| IsLeast(n, ready);
    forall other | Ready(g, done, other)
      ensures LexLessEq(n, other)
    {
      assert other in ready;
    }
  }

  lemma PromisingGrows(g: Graph, done: seq<string>, n: string)
    requires Promising(g, done) && LeastReady(g, done, n)
    ensures Promising(g, done + [n])
  {
    var more := done + [n];
    forall i | 0 <= i < |more|
      ensures more[..i] == if i < |done| then done[..i] else done
    {
    }
  }

  lemma {:induction false} PromisingCompletes(g: Graph, order: seq<string>, done: seq<string>)
    returns (all: seq<string>)
    requires Topological(g, order) && Promising(g, done) && Elements(done) <= g.Keys
    ensures Topological(g, all) && KeepsTieBreak(g, all)
    decreases |g.Keys| - |Elements(done)|
  {
    if Elements(done) == g.Keys {
      all := done;
    } else {
      SomeMissing(g, order, done);
      var n := LeastReadyExists(g, order, done);
      PromisingGrows(g, done, n);
      ElementsGrow(g, done, n);
      all := PromisingCompletes(g, order, done + [n]);
    }
  }

  lemma SomeMissing(g: Graph, order: seq<string>, done: seq<string>)
    requires Elements(order) == g.Keys && Elements(done) <= g.Keys && Elements(done) != g.Keys
    ensures exists x :: x in order && x !in done
  {
    var x :| x in g.Keys && x !in Elements(done);
    assert x in Elements(order);
  }

  lemma ElementsGrow(g: Graph, done: seq<string>, n: string)
    requires n in g && n !in done && Elements(done) <= g.Keys
    ensures Elements(done + [n]) == Elements(done) + {n} <= g.Keys
    ensures |Elements(done)| < |Elements(done + [n])| <= |g.Keys|
  {
    assert Elements(done + [n]) == Elements(done) + {n};
    SubsetSize(Elements(done + [n]), g.Keys);
  }

  lemma SubsetSize<T>(a: set<T>, b: set<T>)
    requires a <= b
    ensures |a| <= |b|
  {
    assert b == a + (b - a);
  }

  lemma NothingIsPromising(g: Graph)
    ensures Promising(g, []) && Elements<string>([]) <= g.Keys
  {
    assert Elements<string>([]) == {};
  }

  /** On every acyclic graph the documented order exists. */
  lemma TieBreakExists(g: Graph) returns (order: seq<string>)
    requires Closed(g) && !Cyclic(g)
    ensures Topological(g, order) && KeepsTieBreak(g, order)
  {
    OrderIsExact(g);
    NothingIsPromising(g);
    order := PromisingCompletes(g, Order(g).value, []);
  }

  // ----- The routes of the walk -----

  function Last(p: seq<string>): string
    requires p != []
  {
    p[|p| - 1]
  }

  /** `e` is listed, and `stop` not yet. */
  ghost predicate ListedBefore(names: seq<string>, e: string, stop: string) {
    exists k :: 0 <= k < |names| && names[k] == e && stop !in names[..k + 1]
  }

  ghost predicate PassedIn(g: Graph, names: seq<string>, stop: string, x: string) {
    exists e :: ListedBefore(names, e, stop) && Reaches(g, e, x)
  }

  /** Something listed before the next step of the path, in one of the dependency
      lists along it, reaches `x`. */
  ghost predicate PassedInside(g: Graph, p: seq<string>, x: string)
    decreases |p|
  {
    |p| >= 2 && p[0] in g && (PassedIn(g, g[p[0]], p[1], x) || PassedInside(g, p[1..], x))
  }

  /** The same, counting the sorted names as the list the path starts from. */
  ghost predicate Passed(g: Graph, p: seq<string>, x: string)
    requires p != []
  {
    PassedIn(g, SortedKeys(g.Keys), p[0], x) || PassedInside(g, p, x)
  }

  /** The way to a service by always taking the first name listed that leads there. */
  ghost predicate IsRoute(g: Graph, p: seq<string>) {
    IsPath(g, p) && p[0] in g && !Passed(g, p, Last(p))
  }

  /** What a path meets below its start before its end: what it passes inside, and
      what the end needs. */
  ghost predicate Beneath(g: Graph, p: seq<string>, x: string)
    requires p != []
  {
    PassedInside(g, p, x) || (x != Last(p) && Reaches(g, Last(p), x))
  }

  /** What lies before the end of a route: what was passed, and what it needs. */
  ghost predicate Before(g: Graph, p: seq<string>, x: string)
    requires p != []
  {
    PassedIn(g, SortedKeys(g.Keys), p[0], x) || Beneath(g, p, x)
  }

  /** A route overtakes a service that was ready: it takes an edge to a greater
      name across it, ends at a greater name, and has everything the service
      depends on before its end, but not the service. */
  ghost predicate Overtakes(g: Graph, p: seq<string>, n: string) {
    && IsRoute(g, p)
    && n in g && LexLess(n, Last(p))
    && (exists i :: 0 <= i < |p| - 1 && Across(p[i], n, p[i + 1]))
    && !Before(g, p, n) && forall d :: d in g[n] ==> Before(g, p, d)
  }

  predicate Across(s: string, n: string, d: string) {
    LexLess(s, n) && LexLess(n, d)
  }

  // ----- What a walk has visited -----

  lemma VisitReaches(g: Graph, name: string, w: Walk)
    requires Closed(g) && name in g && w.visiting <= g.Keys && Good(g, w)
    requires Visit(g, name, w).Ok?
    ensures forall x :: x in Visit(g, name, w).value.visited <==> x in w.visited || Reaches(g, name, x)
  {
    var w' := Visit(g, name, w).value;
    VisitGood(g, name, w);
    GoodIsWithin(g, w);
    WalksAgree(g, name, w);
    CollectAdds(g, name, Seen(w.visited + w.visiting, w.output));
    var added := w'.output[|w.output|..];
    assert w'.output == w.output + added;
    forall x
      ensures x in w'.visited <==> x in w.visited || Reaches(g, name, x)
    {
      assert x in w'.visited <==> x in Elements(w'.output);
      assert x in w.visited <==> x in Elements(w.output);
      if Reaches(g, name, x) {
        assert name in Elements(w'.output);
        DependencyFirstCovers(g, name, w'.output);
      }
    }
  }

  lemma GoodIsWithin(g: Graph, w: Walk)
    requires Good(g, w)
    ensures w.visited <= g.Keys
  {
    forall x | x in w.visited
      ensures x in g
    {
      assert x in Elements(w.output);
      var i :| 0 <= i < |w.output| && w.output[i] == x;
    }
  }

  lemma {:induction false} VisitAllReaches(g: Graph, names: seq<string>, w: Walk)
    requires Closed(g) && (forall n :: n in names ==> n in g) && w.visiting <= g.Keys && Good(g, w)
    requires VisitAll(g, names, w).Ok?
    ensures Good(g, VisitAll(g, names, w).value)
    ensures forall x ::
              x in VisitAll(g, names, w).value.visited <==> x in w.visited || exists e :: e in names && Reaches(g, e, x)
    decreases |names|
  {
    if names != [] {
      var next := Visit(g, names[0], w).value;
      VisitGood(g, names[0], w);
      VisitReaches(g, names[0], w);
      VisitAllReaches(g, names[1..], next);
      assert names == [names[0]] + names[1..];
    }
  }

  lemma {:induction false} VisitAllSplits(g: Graph, a: seq<string>, b: seq<string>, w: Walk)
    requires Closed(g) && (forall n :: n in a + b ==> n in g) && w.visiting <= g.Keys
    requires VisitAll(g, a + b, w).Ok?
    ensures forall n :: n in a || n in b ==> n in g
    ensures VisitAll(g, a, w).Ok? && VisitAll(g, a + b, w) == VisitAll(g, b, VisitAll(g, a, w).value)
    decreases |a|
  {
    assert forall n :: n in a || n in b ==> n in a + b;
    if a == [] {
      assert a + b == b;
    } else {
      assert (a + b)[1..] == a[1..] + b && (a + b)[0] == a[0];
      VisitAllSplits(g, a[1..], b, Visit(g, a[0], w).value);
    }
  }

  // ----- Where a walk puts the end of a route -----

  /** The end of the path sits at `t`, and what precedes it is what was visited
      before the walk, what it passed on the way, and what the end needs. */
  ghost predicate PlacedAt(g: Graph, names: seq<string>, p: seq<string>, w: Walk, w': Walk, t: nat)
    requires p != []
  {
    && t < |w'.output| && w'.output[t] == Last(p)
    && forall x :: x in w'.output[..t] <==> x in w.visited || PassedIn(g, names, p[0], x) || Beneath(g, p, x)
  }

  lemma ReachesByEdge(g: Graph, m: string, x: string)
    requires m in g
    ensures x != m && Reaches(g, m, x) ==> exists e :: e in g[m] && Reaches(g, e, x)
    ensures (exists e :: e in g[m] && Reaches(g, e, x)) ==> Reaches(g, m, x)
  {
    if x != m && Reaches(g, m, x) {
      var q :| IsPath(g, q) && q[0] == m && q[|q| - 1] == x;
      PathTail(g, q);
      assert Edge(g, q[0], q[1]);
      assert Reaches(g, q[1], x);
    }
    if e :| e in g[m] && Reaches(g, e, x) {
      assert Edge(g, m, e);
      ReachesThrough(g, m, e, x);
    }
  }

  lemma PathTail(g: Graph, p: seq<string>)
    requires IsPath(g, p) && |p| >= 2
    ensures IsPath(g, p[1..]) && Last(p[1..]) == Last(p) && Edge(g, p[0], p[1])
  {
    assert Edge(g, p[0], p[1]);
    forall i | 0 <= i < |p[1..]| - 1
      ensures Edge(g, p[1..][i], p[1..][i + 1])
    {
      assert Edge(g, p[i + 1], p[i + 2]);
    }
  }

  lemma EndPlaced(g: Graph, m: string, w: Walk)
    requires Closed(g) && m in g && w.visiting <= g.Keys && Good(g, w)
    requires Visit(g, m, w).Ok? && m !in w.visited
    ensures exists t: nat :: PlacedAt(g, [], [m], w, Visit(g, m, w).value, t)
  {
    var entered := w.(visiting := w.visiting + {m});
    var inner := VisitAll(g, g[m], entered).value;
    VisitAllReaches(g, g[m], entered);
    var w' := Visit(g, m, w).value;
    var t := |inner.output|;
    assert w'.output[..t] == inner.output;
    forall x
      ensures x in w'.output[..t]
              <==> x in w.visited || PassedIn(g, [], m, x) || Beneath(g, [m], x)
    {
      assert x in inner.output <==> x in Elements(inner.output);
      ReachesByEdge(g, m, x);
    }
    assert PlacedAt(g, [], [m], w, w', t);
  }

  lemma {:induction false} VisitPlaces(g: Graph, w: Walk, p: seq<string>)
    requires Closed(g) && IsPath(g, p) && p[0] in g && w.visiting <= g.Keys && Good(g, w)
    requires Visit(g, p[0], w).Ok?
    requires Last(p) !in w.visited && !PassedInside(g, p, Last(p))
    ensures exists t: nat :: PlacedAt(g, [], p, w, Visit(g, p[0], w).value, t)
    decreases |p|, 0
  {
    if |p| == 1 {
      assert p == [p[0]];
      EndPlaced(g, p[0], w);
    } else {
      PathTail(g, p);
      VisitedLeadsOn(g, w, p);
      var entered := w.(visiting := w.visiting + {p[0]});
      VisitAllPlaces(g, g[p[0]], entered, p[1..]);
      var inner := VisitAll(g, g[p[0]], entered).value;
      var t: nat :| PlacedAt(g, g[p[0]], p[1..], entered, inner, t);
      var w' := Visit(g, p[0], w).value;
      assert w'.output[..t] == inner.output[..t];
      assert PlacedAt(g, [], p, w, w', t);
    }
  }

  /** Where the start of a path is visited, so is what it leads to. */
  lemma VisitedLeadsOn(g: Graph, w: Walk, p: seq<string>)
    requires Good(g, w) && IsPath(g, p)
    ensures p[0] in w.visited ==> Last(p) in w.visited
  {
    if p[0] in w.visited {
      assert p[0] in Elements(w.output);
      DependencyFirstCovers(g, p[0], w.output);
      assert Reaches(g, p[0], Last(p));
    }
  }

  lemma FirstListed(names: seq<string>, d: string)
    requires d in names
    ensures exists j: nat :: j < |names| && names[j] == d && d !in names[..j]
  {
    if names[0] == d {
      assert names[..0] == [];
    } else {
      assert names == [names[0]] + names[1..];
      FirstListed(names[1..], d);
      var j: nat :| j < |names| - 1 && names[1..][j] == d && d !in names[1..][..j];
      assert names[..j + 1] == [names[0]] + names[1..][..j];
    }
  }

  lemma InTake(names: seq<string>, j: nat, k: nat)
    requires j < |names| && k <= |names|
    ensures names[j] !in names[..k] ==> k <= j
  {
  }

  lemma ListedBeforeFirst(names: seq<string>, j: nat)
    requires j < |names| && names[j] !in names[..j]
    ensures forall e :: ListedBefore(names, e, names[j]) <==> e in names[..j]
  {
    forall e
      ensures ListedBefore(names, e, names[j]) <==> e in names[..j]
    {
      if e in names[..j] {
        var k :| 0 <= k < j && names[k] == e;
        assert names[..k + 1] == names[..j][..k + 1];
      }
      if ListedBefore(names, e, names[j]) {
        var k :| 0 <= k < |names| && names[k] == e && names[j] !in names[..k + 1];
        InTake(names, j, k + 1);
        assert names[..j][k] == e;
      }
    }
  }

  /** The walk over a list, up to and through the first listing of a name. */
  lemma WalkToName(g: Graph, names: seq<string>, j: nat, w: Walk) returns (w1: Walk, w2: Walk)
    requires Closed(g) && (forall n :: n in names ==> n in g) && w.visiting <= g.Keys && Good(g, w)
    requires j < |names| && VisitAll(g, names, w).Ok?
    ensures Good(g, w1) && w1.visiting == w.visiting && Visit(g, names[j], w1) == Ok(w2)
    ensures forall x :: x in w1.visited <==> x in w.visited || exists e :: e in names[..j] && Reaches(g, e, x)
    ensures w2.output <= VisitAll(g, names, w).value.output
  {
    var front, rest := names[..j], names[j..];
    SplitBefore(names, j);
    VisitAllSplits(g, front, rest, w);
    VisitAllReaches(g, front, w);
    w1 := VisitAll(g, front, w).value;
    VisitAllExtends(g, rest, w1);
    w2 := Visit(g, names[j], w1).value;
  }

  lemma {:induction false} VisitAllPlaces(g: Graph, names: seq<string>, w: Walk, p: seq<string>)
    requires Closed(g) && (forall n :: n in names ==> n in g) && w.visiting <= g.Keys && Good(g, w)
    requires IsPath(g, p) && p[0] in names && VisitAll(g, names, w).Ok?
    requires Last(p) !in w.visited && !PassedIn(g, names, p[0], Last(p)) && !PassedInside(g, p, Last(p))
    ensures exists t: nat :: PlacedAt(g, names, p, w, VisitAll(g, names, w).value, t)
    decreases |p|, 1
  {
    FirstListed(names, p[0]);
    var j: nat :| j < |names| && names[j] == p[0] && p[0] !in names[..j];
    ListedBeforeFirst(names, j);
    var w1, w2 := WalkToName(g, names, j, w);
    VisitPlaces(g, w1, p);
    var t: nat :| PlacedAt(g, [], p, w1, w2, t);
    PlacedLater(g, names, names[..j], p, w, w1, w2, VisitAll(g, names, w).value, t);
  }

  lemma VisitAllExtends(g: Graph, names: seq<string>, w: Walk)
    requires Closed(g) && (forall n :: n in names ==> n in g) && w.visiting <= g.Keys && Good(g, w)
    requires names != [] && VisitAll(g, names, w).Ok?
    ensures Visit(g, names[0], w).value.output <= VisitAll(g, names, w).value.output
  {
    VisitGood(g, names[0], w);
    VisitAllGood(g, names[1..], Visit(g, names[0], w).value);
  }

  lemma PlacedLater(g: Graph, names: seq<string>, front: seq<string>, p: seq<string>, w: Walk, w1: Walk, w2: Walk,
    w': Walk, t: nat)
    requires p != [] && PlacedAt(g, [], p, w1, w2, t) && w2.output <= w'.output
    requires forall x :: x in w1.visited <==> x in w.visited || exists e :: e in front && Reaches(g, e, x)
    requires forall e :: ListedBefore(names, e, p[0]) <==> e in front
    ensures PlacedAt(g, names, p, w, w', t)
  {
    assert w'.output[..t] == w2.output[..t];
  }

  /** The order has the end of the route at `t`, right after what lies before it. */
  ghost predicate EndsAt(g: Graph, p: seq<string>, order: seq<string>, t: nat)
    requires p != []
  {
    t < |order| && order[t] == Last(p) && forall x :: x in order[..t] <==> Before(g, p, x)
  }

  /** The walk lists the end of a route exactly after what lies before it. */
  lemma RoutePlaced(g: Graph, p: seq<string>) returns (t: nat)
    requires Closed(g) && Order(g).Ok? && IsRoute(g, p)
    ensures EndsAt(g, p, Order(g).value, t)
  {
    var names := SortedKeys(g.Keys);
    assert forall n :: n in names <==> n in Elements(names);
    VisitAllPlaces(g, names, EMPTY_WALK, p);
    t :| PlacedAt(g, names, p, EMPTY_WALK, VisitAll(g, names, EMPTY_WALK).value, t);
  }

  lemma ReadyAtEnd(g: Graph, p: seq<string>, order: seq<string>, t: nat, n: string)
    requires p != [] && EndsAt(g, p, order, t)
    ensures Ready(g, order[..t], n) <==> n in g && !Before(g, p, n) && forall d :: d in g[n] ==> Before(g, p, d)
  {
  }

  // ----- Every service has a route -----

  ghost predicate NoneReaches(g: Graph, names: seq<string>, m: string) {
    forall e :: e in names ==> !Reaches(g, e, m)
  }

  lemma {:induction false} FirstReaching(g: Graph, names: seq<string>, m: string, i: nat) returns (j: nat)
    requires i <= |names| && NoneReaches(g, names[..i], m)
    requires exists k :: i <= k < |names| && Reaches(g, names[k], m)
    ensures j < |names| && Reaches(g, names[j], m) && NoneReaches(g, names[..j], m)
    decreases |names| - i
  {
    if Reaches(g, names[i], m) {
      j := i;
    } else {
      NoneReachesNext(g, names, m, i);
      j := FirstReaching(g, names, m, i + 1);
    }
  }

  lemma NoneReachesNext(g: Graph, names: seq<string>, m: string, i: nat)
    requires i < |names| && NoneReaches(g, names[..i], m) && !Reaches(g, names[i], m)
    ensures NoneReaches(g, names[..i + 1], m)
  {
    TakeNext(names, i);
  }

  /** The first name listed that leads to `m`: nothing before it does. */
  lemma FirstStep(g: Graph, names: seq<string>, m: string) returns (d: string)
    requires exists e :: e in names && Reaches(g, e, m)
    ensures d in names && Reaches(g, d, m) && !PassedIn(g, names, d, m)
  {
    var e :| e in names && Reaches(g, e, m);
    var k :| 0 <= k < |names| && names[k] == e;
    var j := FirstReaching(g, names, m, 0);
    d := names[j];
    ListedBeforeFirst(names, j);
  }

  ghost predicate LeadsTo(g: Graph, p: seq<string>, s: string, m: string) {
    IsPath(g, p) && p[0] == s && Last(p) == m && !PassedInside(g, p, m)
  }

  lemma {:induction false} RouteFrom(g: Graph, order: seq<string>, i: nat, m: string)
    requires DependencyFirst(g, order) && i < |order| && Reaches(g, order[i], m)
    ensures exists p :: LeadsTo(g, p, order[i], m)
    decreases i
  {
    var s := order[i];
    if s == m {
      assert LeadsTo(g, [m], m, m);
    } else {
      ReachesByEdge(g, s, m);
      var d := FirstStep(g, g[s], m);
      assert d in order[..i];
      var k :| 0 <= k < i && order[k] == d;
      RouteFrom(g, order, k, m);
      var rest :| LeadsTo(g, rest, d, m);
      StepsOn(g, s, d, m, rest);
    }
  }

  lemma StepsOn(g: Graph, s: string, d: string, m: string, rest: seq<string>)
    requires Edge(g, s, d) && !PassedIn(g, g[s], d, m) && LeadsTo(g, rest, d, m)
    ensures LeadsTo(g, [s] + rest, s, m)
  {
    var p := [s] + rest;
    assert p[1..] == rest;
    forall i | 0 <= i < |p| - 1
      ensures Edge(g, p[i], p[i + 1])
    {
      if i > 0 {
        assert Edge(g, rest[i - 1], rest[i]);
      }
    }
  }

  lemma RouteExists(g: Graph, m: string)
    requires Closed(g) && Order(g).Ok? && m in g
    ensures exists p :: IsRoute(g, p) && Last(p) == m
  {
    var names, order := SortedKeys(g.Keys), Order(g).value;
    SuccessIsTopological(g);
    ReachesItself(g, m);
    assert m in Elements(names);
    var k := FirstStep(g, names, m);
    assert k in Elements(names) && k in Elements(order);
    var i :| 0 <= i < |order| && order[i] == k;
    RouteFrom(g, order, i, m);
    var p :| LeadsTo(g, p, k, m);
    assert IsRoute(g, p);
  }

  // ----- When the tie-break is kept -----

  /** A ready service is not on the way to the end of the route. */
  lemma ReadyLeadsElsewhere(g: Graph, p: seq<string>, n: string)
    requires IsRoute(g, p) && !Cyclic(g) && n in g && n != Last(p)
    requires forall d :: d in g[n] ==> Before(g, p, d)
    ensures !Reaches(g, n, Last(p))
  {
    var m := Last(p);
    ReachesByEdge(g, n, m);
    forall d | d in g[n]
      ensures !Reaches(g, d, m)
    {
      BeforeLeadsElsewhere(g, p, d);
    }
  }

  lemma BeforeLeadsElsewhere(g: Graph, p: seq<string>, d: string)
    requires IsRoute(g, p) && !Cyclic(g) && Before(g, p, d)
    ensures !Reaches(g, d, Last(p))
  {
    var m := Last(p);
    if Reaches(g, d, m) {
      if Passed(g, p, d) {
        PassedOnwards(g, p, d, m);
      } else {
        MutualReachIsCycle(g, m, d);
      }
      assert false;
    }
  }

  lemma {:induction false} PassedInsideOnwards(g: Graph, p: seq<string>, d: string, m: string)
    requires PassedInside(g, p, d) && Reaches(g, d, m)
    ensures PassedInside(g, p, m)
    decreases |p|
  {
    if PassedIn(g, g[p[0]], p[1], d) {
      PassedInOnwards(g, g[p[0]], p[1], d, m);
    } else {
      PassedInsideOnwards(g, p[1..], d, m);
    }
  }

  lemma PassedInOnwards(g: Graph, names: seq<string>, stop: string, d: string, m: string)
    requires PassedIn(g, names, stop, d) && Reaches(g, d, m)
    ensures PassedIn(g, names, stop, m)
  {
    var e :| ListedBefore(names, e, stop) && Reaches(g, e, d);
    ReachesTransitive(g, e, d, m);
  }

  lemma PassedOnwards(g: Graph, p: seq<string>, d: string, m: string)
    requires p != [] && Passed(g, p, d) && Reaches(g, d, m)
    ensures Passed(g, p, m)
  {
    if PassedInside(g, p, d) {
      PassedInsideOnwards(g, p, d, m);
    } else {
      PassedInOnwards(g, SortedKeys(g.Keys), p[0], d, m);
    }
  }

  lemma JoinPaths(g: Graph, p: seq<string>, q: seq<string>)
    requires IsPath(g, p) && IsPath(g, q) && Last(p) == q[0]
    ensures IsPath(g, p + q[1..]) && (p + q[1..])[0] == p[0] && Last(p + q[1..]) == Last(q)
  {
    var all := p + q[1..];
    forall i | 0 <= i < |all| - 1
      ensures Edge(g, all[i], all[i + 1])
    {
      if i < |p| - 1 {
        assert Edge(g, p[i], p[i + 1]);
      } else {
        var k := i - (|p| - 1);
        assert all[i] == q[k] && all[i + 1] == q[k + 1];
        assert Edge(g, q[k], q[k + 1]);
      }
    }
  }

  lemma ReachesTransitive(g: Graph, a: string, b: string, c: string)
    requires Reaches(g, a, b) && Reaches(g, b, c)
    ensures Reaches(g, a, c)
  {
    var p :| IsPath(g, p) && p[0] == a && p[|p| - 1] == b;
    var q :| IsPath(g, q) && q[0] == b && q[|q| - 1] == c;
    JoinPaths(g, p, q);
  }

  lemma MutualReachIsCycle(g: Graph, a: string, b: string)
    requires a != b && Reaches(g, a, b) && Reaches(g, b, a)
    ensures Cyclic(g)
  {
    var p :| IsPath(g, p) && p[0] == a && p[|p| - 1] == b;
    var q :| IsPath(g, q) && q[0] == b && q[|q| - 1] == a;
    JoinPaths(g, p, q);
    assert OnCycle(g, a);
  }

  /** A path from below a name to above it, not through it, has an edge across. */
  lemma {:induction false} CrossesOver(p: seq<string>, n: string)
    requires p != [] && n !in p && LexLess(p[0], n) && LexLess(n, Last(p))
    ensures exists i :: 0 <= i < |p| - 1 && Across(p[i], n, p[i + 1])
    decreases |p|
  {
    LexAsymmetric(p[0], n);
    assert |p| >= 2 && p[1] in p;
    LexTotal(p[1], n);
    if LexLess(n, p[1]) {
      assert Across(p[0], n, p[1]);
    } else {
      assert forall x :: x in p[1..] ==> x in p;
      CrossesOver(p[1..], n);
      var i :| 0 <= i < |p[1..]| - 1 && Across(p[1..][i], n, p[1..][i + 1]);
      assert Across(p[i + 1], n, p[i + 2]);
    }
  }

  lemma OvertakingBreaks(g: Graph, p: seq<string>, n: string)
    requires Closed(g) && Order(g).Ok? && Overtakes(g, p, n)
    ensures !KeepsTieBreak(g, Order(g).value)
  {
    var t := RoutePlaced(g, p);
    ReadyAtEnd(g, p, Order(g).value, t, n);
    LexAsymmetric(n, Last(p));
  }

  lemma RouteToPosition(g: Graph, i: nat) returns (p: seq<string>)
    requires Closed(g) && Order(g).Ok? && i < |Order(g).value|
    ensures IsRoute(g, p) && EndsAt(g, p, Order(g).value, i)
  {
    var order := Order(g).value;
    SuccessIsTopological(g);
    assert order[i] in Elements(order);
    RouteExists(g, order[i]);
    p :| IsRoute(g, p) && Last(p) == order[i];
    var t := RoutePlaced(g, p);
  }

  /** Where the tie-break is broken, the route taken there overtakes the service
      that should have come. */
  lemma BreakingOvertakes(g: Graph, i: nat, n: string) returns (p: seq<string>)
    requires Closed(g) && Order(g).Ok? && i < |Order(g).value|
    requires Ready(g, Order(g).value[..i], n) && LexLess(n, Order(g).value[i])
    ensures Overtakes(g, p, n)
  {
    p := RouteToPosition(g, i);
    ReadyAtEnd(g, p, Order(g).value, i, n);
    OrderIsExact(g);
    LexAsymmetric(n, Last(p));
    ReadyLeadsElsewhere(g, p, n);
    NotOnTheWay(g, p, n);
    StartsBelow(g, p, n);
    CrossesOver(p, n);
  }

  lemma {:induction false} NotOnTheWay(g: Graph, p: seq<string>, n: string)
    requires IsPath(g, p) && !Reaches(g, n, Last(p))
    ensures n !in p
    decreases |p|
  {
    assert p[0] != n by {
      assert Reaches(g, p[0], Last(p));
    }
    if |p| >= 2 {
      PathTail(g, p);
      NotOnTheWay(g, p[1..], n);
      assert p == [p[0]] + p[1..];
    }
  }

  /** A route starts below whatever it has not passed. */
  lemma StartsBelow(g: Graph, p: seq<string>, n: string)
    requires IsRoute(g, p) && n in g && !Passed(g, p, n) && n !in p
    ensures LexLess(p[0], n)
  {
    var names := SortedKeys(g.Keys);
    assert n in Elements(names) && p[0] in Elements(names);
    var j :| 0 <= j < |names| && names[j] == p[0];
    SortedHasNoDuplicates(names);
    ListedBeforeFirst(names, j);
    ReachesItself(g, n);
    EarlierKeys(names, j, n);
    assert n !in names[..j];
    assert p[0] in p;
    LexTotal(p[0], n);
  }

  /** `service_order` keeps the documented tie-break exactly when no route of the
      graph overtakes a smaller service that is ready. */
  lemma TieBreakKeptIff(g: Graph)
    requires Closed(g) && !Cyclic(g)
    ensures Order(g).Ok?
    ensures KeepsTieBreak(g, Order(g).value) <==> !exists p, n :: Overtakes(g, p, n)
  {
    OrderIsExact(g);
    var order := Order(g).value;
    if p, n :| Overtakes(g, p, n) {
      OvertakingBreaks(g, p, n);
    }
    if !KeepsTieBreak(g, order) {
      var i, n :| 0 <= i < |order| && Ready(g, order[..i], n) && !LexLessEq(order[i], n);
      LexTotal(n, order[i]);
      var p := BreakingOvertakes(g, i, n);
    }
  }

  /** A check on single edges: the tie-break is kept if whatever sorts between the
      ends of an edge to a greater name depends on its far end. */
  lemma EdgesKeepTieBreak(g: Graph)
    requires Closed(g) && !Cyclic(g)
    requires forall s, n, d :: Edge(g, s, d) && n in g && Across(s, n, d) ==> Reaches(g, n, d)
    ensures Order(g).Ok? && KeepsTieBreak(g, Order(g).value)
  {
    TieBreakKeptIff(g);
    forall p, n | Overtakes(g, p, n)
      ensures false
    {
      var i :| 0 <= i < |p| - 1 && Across(p[i], n, p[i + 1]);
      assert Edge(g, p[i], p[i + 1]);
      LexAsymmetric(n, Last(p));
      ReadyLeadsElsewhere(g, p, n);
      SuffixReaches(g, p, i + 1);
      ReachesTransitive(g, n, p[i + 1], Last(p));
    }
  }

  lemma SuffixReaches(g: Graph, p: seq<string>, i: nat)
    requires IsPath(g, p) && i < |p|
    ensures Reaches(g, p[i], Last(p))
  {
    var q := p[i..];
    forall k | 0 <= k < |q| - 1
      ensures Edge(g, q[k], q[k + 1])
    {
      assert Edge(g, p[i + k], p[i + k + 1]);
    }
    assert IsPath(g, q) && q[0] == p[i] && q[|q| - 1] == Last(p);
  }

  // ----- A graph on which it is not kept -----

  /** `a` depends on `z`; `b` and `z` depend on nothing. */
  function Crossing(a: string, b: string, z: string): Graph {
    map[a := [z], b := [], z := []]
  }

  lemma VisitOne(g: Graph, name: string, w: Walk)
    requires Closed(g) && name in g && w.visiting <= g.Keys
    ensures VisitAll(g, [name], w) == Visit(g, name, w)
  {
  }

  lemma VisitLeaf(g: Graph, name: string, w: Walk)
    requires Closed(g) && name in g && g[name] == [] && w.visiting <= g.Keys
    requires name !in w.visited && name !in w.visiting
    ensures Visit(g, name, w) == Ok(Walk(w.visiting, w.visited + {name}, w.output + [name]))
  {
    assert w.visiting + {name} - {name} == w.visiting;
  }

  /** A service whose one dependency is a leaf seen for the first time. */
  lemma VisitTwig(g: Graph, name: string, leaf: string)
    requires Closed(g) && name in g && g[name] == [leaf] && leaf in g && g[leaf] == [] && leaf != name
    ensures Visit(g, name, EMPTY_WALK) == Ok(Walk({}, {leaf} + {name}, [leaf] + [name]))
  {
    var entered := EMPTY_WALK.(visiting := {name});
    VisitOne(g, leaf, entered);
    VisitLeaf(g, leaf, entered);
    assert {} + {name} == {name} && {} + {leaf} == {leaf} && {name} - {name} == {};
    AppendNothing([leaf]);
  }

  lemma CrossingOrder(a: string, b: string, z: string)
    requires LexLess(a, b) && LexLess(b, z)
    ensures Closed(Crossing(a, b, z))
    ensures Order(Crossing(a, b, z)) == Ok([z] + [a] + [b])
  {
    var g := Crossing(a, b, z);
    SortedTriple(a, b, z);
    assert g.Keys == {a, b, z};
    CrossingWalk(g, a, b, z);
  }

  lemma CrossingWalk(g: Graph, a: string, b: string, z: string)
    requires Closed(g) && a in g && b in g && z in g && a != b && b != z && a != z
    requires g[a] == [z] && g[b] == [] && g[z] == []
    ensures VisitAll(g, [a, b, z], EMPTY_WALK) == Ok(Walk({}, {z} + {a} + {b}, [z] + [a] + [b]))
  {
    VisitTwig(g, a, z);
    var afterA := Walk({}, {z} + {a}, [z] + [a]);
    VisitLeaf(g, b, afterA);
    var afterB := Walk({}, {z} + {a} + {b}, [z] + [a] + [b]);
    AllVisited(g, [z], afterB);
    WalkThree(g, a, b, z, afterA, afterB);
  }

  lemma WalkThree(g: Graph, a: string, b: string, z: string, afterA: Walk, afterB: Walk)
    requires Closed(g) && a in g && b in g && z in g
    requires Visit(g, a, EMPTY_WALK) == Ok(afterA) && afterA.visiting == {} && Visit(g, b, afterA) == Ok(afterB)
    requires afterB.visiting == {} && VisitAll(g, [z], afterB) == Ok(afterB)
    ensures VisitAll(g, [a, b, z], EMPTY_WALK) == Ok(afterB)
  {
    assert [a, b, z][1..] == [b, z] && [b, z][1..] == [z];
    assert VisitAll(g, [b, z], afterA) == VisitAll(g, [z], afterB);
  }

  lemma CrossingTopological(a: string, b: string, z: string)
    requires LexLess(a, b) && LexLess(b, z)
    ensures Topological(Crossing(a, b, z), [b, z, a])
  {
    var order := [b, z, a];
    SortedTriple(a, b, z);
    ElementsOfThree(b, z, a);
    assert Crossing(a, b, z).Keys == {b, z, a};
    assert order[..2] == [b, z];
  }

  lemma CrossingTieBreak(a: string, b: string, z: string)
    requires LexLess(a, b) && LexLess(b, z)
    ensures KeepsTieBreak(Crossing(a, b, z), [b, z, a])
  {
    var order := [b, z, a];
    SortedTriple(a, b, z);
    assert order[..0] == [] && order[..1] == [b] && order[..2] == [b, z];
    forall i, n | 0 <= i < 3 && Ready(Crossing(a, b, z), order[..i], n)
      ensures LexLessEq(order[i], n)
    {
      assert z in Crossing(a, b, z)[a];
      assert n == a || n == b || n == z;
    }
  }

  /** For any three names in ascending order, `b` could come first, but the walk
      takes a's dependency `z` before it: it gives z, a, b where the documented
      order is b, z, a. */
  lemma TieBreakCanBreak(a: string, b: string, z: string)
    requires LexLess(a, b) && LexLess(b, z)
    ensures Closed(Crossing(a, b, z)) && Order(Crossing(a, b, z)) == Ok([z] + [a] + [b])
    ensures !KeepsTieBreak(Crossing(a, b, z), [z] + [a] + [b])
    ensures Topological(Crossing(a, b, z), [b, z, a]) && KeepsTieBreak(Crossing(a, b, z), [b, z, a])
  {
    SortedTriple(a, b, z);
    LexAsymmetric(b, z);
    CrossingOrder(a, b, z);
    CrossingTopological(a, b, z);
    CrossingTieBreak(a, b, z);
    var order := [z] + [a] + [b];
    assert order[0] == z && order[..0] == [];
    assert Ready(Crossing(a, b, z), order[..0], b);
  }

  /** In particular for the names a, b and z. */
  lemma TieBreakIsNotAlwaysKept()
    ensures Closed(Crossing("a", "b", "z")) && Order(Crossing("a", "b", "z")).Ok?
    ensures !KeepsTieBreak(Crossing("a", "b", "z"), Order(Crossing("a", "b", "z")).value)
  {
    TieBreakCanBreak("a", "b", "z");
  }
}
