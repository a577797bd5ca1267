/** packages/golib/healthgraph/graph.go: startup order and failure impact by depth-first search. */
module HealthGraph {
  import opened Dependencies
  import S = Strings

  datatype Node = Node(status: string, dependencies: seq<string>)

  function Edges(nodes: map<string, Node>): Graph {
    map n | n in nodes :: set d | d in nodes[n].dependencies
  }

  /** The `affected` map that the recursive calls of findDependents share. */
  class Marks {
    var names: set<string>
    constructor () ensures names == {} { names := {}; }
  }

  /** The `visited` map and `order` slice that the recursive calls of visit share. */
  class Traversal {
    var visited: set<string>
    var order: seq<string>
    constructor () ensures visited == {} && order == [] { visited, order := {}, []; }
  }

  ghost predicate Before(order: seq<string>, a: string, b: string) {
    exists i, j | 0 <= i < j < |order| :: order[i] == a && order[j] == b
  }

  /** What a depth-first order guarantees on any graph: a registered dependency comes first, unless it
      depends in turn on the node that declares it. */
  ghost predicate Respects(g: Graph, order: seq<string>) {
    forall x, d | x in order && d in g && Edge(g, x, d) :: Before(order, d, x) || DependsOn(g, d, x)
  }

  /** The nodes being visited, outermost first: each declares the next. */
  ghost predicate IsStack(g: Graph, stack: seq<string>) {
    && (forall i | 0 <= i < |stack| :: stack[i] in g)
    && (forall i | 0 <= i < |stack| - 1 :: Edge(g, stack[i], stack[i + 1]))
  }

  lemma StackDepends(g: Graph, stack: seq<string>, i: nat)
    requires IsStack(g, stack) && i < |stack| - 1
    ensures DependsOn(g, stack[i], stack[|stack| - 1])
  {
    var p := stack[i..];
    assert IsPath(g, p);
  }

  /** Marked names that are registered are exactly the finished ones and those on the stack. */
  ghost predicate Searching(g: Graph, visited: set<string>, order: seq<string>, stack: seq<string>) {
    && IsStack(g, stack) && S.Distinct(order) && Respects(g, order)
    && (forall x | x in order :: x in g && x in visited && x !in stack)
    && (forall x | x in stack :: x in visited)
    && (forall x | x in visited && x in g :: x in order || x in stack)
  }

  lemma OpenNode(g: Graph, visited: set<string>, order: seq<string>, stack: seq<string>, name: string)
    requires name in g && name !in visited && Searching(g, visited, order, stack)
    requires stack != [] ==> Edge(g, stack[|stack| - 1], name)
    ensures Searching(g, visited + {name}, order, stack + [name]) && name !in stack
  {
  }

  lemma FinishNode(g: Graph, visited: set<string>, order: seq<string>, stack: seq<string>, name: string)
    requires name in g && name !in stack && Searching(g, visited, order, stack + [name])
    requires forall d | d in g[name] :: d in visited
    ensures Searching(g, visited, order + [name], stack)
  {
    var full, order' := stack + [name], order + [name];
    assert name in full;
    forall x, d | x in order' && d in g && Edge(g, x, d) ensures Before(order', d, x) || DependsOn(g, d, x) {
      if x in order {
        if Before(order, d, x) {
          var i, j :| 0 <= i < j < |order| && order[i] == d && order[j] == x;
          assert order'[i] == d && order'[j] == x;
        }
      } else {
        assert x == name;
        if d in order {
          var i :| 0 <= i < |order| && order[i] == d;
          assert order'[i] == d && order'[|order|] == name;
        } else {
          assert d in full;
          var i :| 0 <= i < |full| && full[i] == d;
          if i < |full| - 1 {
            StackDepends(g, full, i);
          } else {
            DirectDependency(g, d, x);
          }
        }
      }
    }
    assert IsStack(g, stack) by {
      assert forall i | 0 <= i < |stack| :: stack[i] == full[i];
    }
    forall x | x in order' ensures x in g && x in visited && x !in stack {
      assert x in order ==> x !in full;
    }
    assert forall x | x in stack :: x in full;
    forall x | x in visited && x in g ensures x in order' || x in stack {
      assert x in order || x in full;
    }
  }

  lemma MarkUnregistered(g: Graph, visited: set<string>, order: seq<string>, stack: seq<string>, name: string)
    requires name !in g && name !in visited && Searching(g, visited, order, stack)
    ensures Searching(g, visited + {name}, order, stack) && name !in stack
  {
  }

  ghost predicate Within(nodes: map<string, Node>, universe: set<string>) {
    forall n, d | n in nodes && d in nodes[n].dependencies :: d in universe
  }

  lemma DependenciesWithin(nodes: map<string, Node>, universe: set<string>, name: string, deps: seq<string>)
    requires Within(nodes, universe) && name in nodes && forall d :: d in deps <==> d in nodes[name].dependencies
    ensures forall d | d in deps :: d in universe && Edge(Edges(nodes), name, d)
    ensures forall d | d in Edges(nodes)[name] :: d in deps
  {
  }

  /** Every registered dependency comes before the node that declares it. */
  ghost predicate DependenciesFirst(g: Graph, order: seq<string>) {
    forall x, d | d in g && Edge(g, x, d) :: Before(order, d, x)
  }

  lemma BeforeThrough(order: seq<string>, a: string, b: string, c: string)
    requires S.Distinct(order) && Before(order, a, b) && Before(order, b, c)
    ensures Before(order, a, c)
  {
    var i, j :| 0 <= i < j < |order| && order[i] == a && order[j] == b;
    var k, l :| 0 <= k < l < |order| && order[k] == b && order[l] == c;
    assert j == k;
  }

  lemma {:induction false} PathBackwards(g: Graph, order: seq<string>, p: seq<string>)
    requires S.Distinct(order) && DependenciesFirst(g, order) && IsPath(g, p) && p[|p| - 1] in g
    ensures Before(order, p[|p| - 1], p[0])
    decreases |p|
  {
    assert Edge(g, p[0], p[1]);
    if |p| > 2 {
      assert IsPath(g, p[1..]);
      assert Edge(g, p[1], p[2]);
      PathBackwards(g, order, p[1..]);
      BeforeThrough(order, p[|p| - 1], p[1], p[0]);
    }
  }

  /** The exception in Respects never applies exactly when the graph is acyclic. */
  lemma AcyclicOrder(g: Graph, order: seq<string>)
    requires Respects(g, order) && S.Distinct(order) && forall x | x in g :: x in order
    ensures DependenciesFirst(g, order) <==> Acyclic(g)
  {
    if Acyclic(g) {
      forall x, d | d in g && Edge(g, x, d) ensures Before(order, d, x) {
        if DependsOn(g, d, x) {
          DependencyThrough(g, x, d, x);
        }
      }
    }
    if DependenciesFirst(g, order) {
      forall a | a in g ensures !DependsOn(g, a, a) {
        if DependsOn(g, a, a) {
          var p :| IsPath(g, p) && p[0] == a && p[|p| - 1] == a;
          PathBackwards(g, order, p);
        }
      }
    }
  }

  // The order itself: depth first, names and dependencies in sorted order.

  datatype Search = Search(visited: set<string>, order: seq<string>)

  /** `room` bounds the names not yet visited. */
  function Visited(nodes: map<string, Node>, name: string, s: Search, room: nat): Search
    decreases room, 0
  {
    if name in s.visited then s
    else if name !in nodes || room == 0 then s.(visited := s.visited + {name})
    else
      var t := VisitedAll(nodes, S.Arranged(nodes[name].dependencies), s.(visited := s.visited + {name}), room - 1);
      t.(order := t.order + [name])
  }

  function VisitedAll(nodes: map<string, Node>, names: seq<string>, s: Search, room: nat): Search
    decreases room, |names| + 1
  {
    if names == [] then s
    else
      var n := |names| - 1;
      Visited(nodes, names[n], VisitedAll(nodes, names[..n], s, room), room)
  }

  function Universe(nodes: map<string, Node>): set<string> {
    nodes.Keys + set n, d | n in nodes && d in nodes[n].dependencies :: d
  }

  lemma ListingExists(names: set<string>)
    ensures exists s :: S.Sorted(s) && S.Distinct(s) && forall x :: x in s <==> x in names
  {
    var s := S.SortedListingExists(names);
  }

  /** The names in sorted order. */
  ghost function Listed(names: set<string>): (s: seq<string>)
    ensures S.Sorted(s) && S.Distinct(s) && forall x :: x in s <==> x in names
  {
    ListingExists(names);
    var s :| S.Sorted(s) && S.Distinct(s) && forall x :: x in s <==> x in names;
    s
  }

  ghost function StartupOrder(nodes: map<string, Node>): seq<string> {
    VisitedAll(nodes, Listed(nodes.Keys), Search({}, []), |Universe(nodes)|).order
  }

  /** The same dependencies, listed in any order. */
  ghost predicate SameListing(a: map<string, Node>, b: map<string, Node>) {
    a.Keys == b.Keys && forall n | n in a :: multiset(a[n].dependencies) == multiset(b[n].dependencies)
  }

  lemma {:induction false} VisitedSame(a: map<string, Node>, b: map<string, Node>, name: string, s: Search, room: nat)
    requires SameListing(a, b)
    ensures Visited(a, name, s, room) == Visited(b, name, s, room)
    decreases room, 0
  {
    if name !in s.visited && name in a && room > 0 {
      S.ArrangedOnce(a[name].dependencies, b[name].dependencies);
      VisitedAllSame(a, b, S.Arranged(a[name].dependencies), s.(visited := s.visited + {name}), room - 1);
    }
  }

  lemma {:induction false} VisitedAllSame(a: map<string, Node>, b: map<string, Node>, names: seq<string>, s: Search, room: nat)
    requires SameListing(a, b)
    ensures VisitedAll(a, names, s, room) == VisitedAll(b, names, s, room)
    decreases room, |names| + 1
  {
    if names != [] {
      var n := |names| - 1;
      VisitedAllSame(a, b, names[..n], s, room);
      VisitedSame(a, b, names[n], VisitedAll(a, names[..n], s, room), room);
    }
  }

  /** The startup order depends on the names and on who declares whom, not on the order in which nodes were
      added or dependencies listed. */
  lemma OrderIsDeterministic(a: map<string, Node>, b: map<string, Node>)
    requires SameListing(a, b)
    ensures StartupOrder(a) == StartupOrder(b)
  {
    S.SortedListingUnique(Listed(a.Keys), Listed(b.Keys));
    forall d ensures d in Universe(a) <==> d in Universe(b) {
      forall n | n in a ensures d in a[n].dependencies <==> d in b[n].dependencies {
        assert d in multiset(a[n].dependencies) <==> d in multiset(b[n].dependencies);
      }
    }
    assert Universe(a) == Universe(b);
    VisitedAllSame(a, b, Listed(a.Keys), Search({}, []), |Universe(a)|);
  }

  lemma VisitedStep(nodes: map<string, Node>, name: string, s: Search, room: nat)
    ensures name in nodes <==> name in Edges(nodes)
    ensures Visited(nodes, name, s, room) ==
            if name in s.visited then s
            else if name !in nodes || room == 0 then Search(s.visited + {name}, s.order)
            else
              var t := VisitedAll(nodes, S.Arranged(nodes[name].dependencies), Search(s.visited + {name}, s.order), room - 1);
              Search(t.visited, t.order + [name])
  {
  }

  lemma UnvisitedShrink(universe: set<string>, visited: set<string>, name: string)
    requires name in universe && name !in visited
    ensures |universe - (visited + {name})| < |universe - visited|
  {
    SmallerSet(universe - (visited + {name}), universe - visited);
  }

  lemma VisitAlone(nodes: map<string, Node>, name: string, s: Search, room: nat)
    requires name in nodes && nodes[name].dependencies == [] && name !in s.visited && room > 0
    ensures Visited(nodes, name, s, room) == Search(s.visited + {name}, s.order + [name])
  {
    assert S.Arranged([]) == [];
  }

  lemma {:induction false} IndependentInOrder(nodes: map<string, Node>, names: seq<string>, room: nat)
    requires S.Distinct(names) && (names != [] ==> room > 0)
    requires forall n | n in names :: n in nodes && nodes[n].dependencies == []
    ensures VisitedAll(nodes, names, Search({}, []), room) == Search((set n | n in names), names)
    decreases |names|
  {
    if names != [] {
      hide Visited;
      var n := |names| - 1;
      var front, last := names[..n], names[n];
      assert names == front + [last] && last !in front;
      IndependentInOrder(nodes, front, room);
      VisitAlone(nodes, last, Search((set x | x in front), front), room);
      assert (set x | x in names) == (set x | x in front) + {last};
    }
  }

  /** Nodes without dependencies start in the order of their names. */
  lemma IndependentNodesSorted(nodes: map<string, Node>)
    requires forall n | n in nodes :: nodes[n].dependencies == []
    ensures S.Sorted(StartupOrder(nodes)) && forall x :: x in StartupOrder(nodes) <==> x in nodes
  {
    var names := Listed(nodes.Keys);
    if names != [] {
      assert names[0] in names && names[0] in Universe(nodes);
    }
    IndependentInOrder(nodes, names, |Universe(nodes)|);
  }

  /** The keys of a Go map in some iteration order. */
  method Listing(keys: set<string>) returns (names: seq<string>)
    ensures S.Distinct(names) && forall x :: x in names <==> x in keys
  {
    names := [];
    var rest := keys;
    while rest != {}
      invariant rest <= keys && S.Distinct(names)
      invariant forall x :: x in keys <==> x in rest || x in names
      invariant forall x | x in rest :: x !in names
      decreases |rest|
    {
      var n :| n in rest;
      names, rest := names + [n], rest - {n};
    }
  }

  class HealthGraph {
    var nodes: map<string, Node>

    constructor ()
      ensures nodes == map[]
    {
      nodes := map[];
    }

    method AddNode(name: string, deps: seq<string>)
      modifies this
      ensures nodes == old(nodes)[name := Node("healthy", deps)]
    {
      nodes := nodes[name := Node("healthy", deps)];
    }

    method SortedDependencies(name: string) returns (deps: seq<string>)
      requires name in nodes
      ensures deps == S.Arranged(nodes[name].dependencies)
      ensures forall d :: d in deps <==> d in nodes[name].dependencies
    {
      deps := S.Sort(nodes[name].dependencies);
      SameMembers(deps, nodes[name].dependencies);
      S.ArrangedSorted(nodes[name].dependencies);
      S.SortedUnique(deps, S.Arranged(nodes[name].dependencies));
    }

    /** The inner function of TopologicalOrder; `stack` names the visits still open, `room` bounds the
        names not yet visited. */
    method Visit(name: string, t: Traversal, ghost universe: set<string>, ghost stack: seq<string>, ghost room: nat)
      requires t as object != this
      requires t.visited <= universe && name in universe && |universe - t.visited| <= room
      requires Within(nodes, universe)
      requires Searching(Edges(nodes), t.visited, t.order, stack)
      requires stack != [] ==> Edge(Edges(nodes), stack[|stack| - 1], name)
      modifies t
      ensures old(t.visited) <= t.visited <= universe && name in t.visited
      ensures old(t.order) <= t.order
      ensures Searching(Edges(nodes), t.visited, t.order, stack)
      ensures Search(t.visited, t.order) == Visited(nodes, name, old(Search(t.visited, t.order)), room)
      decreases room, 0
    {
      hide *;
      VisitedStep(nodes, name, Search(t.visited, t.order), room);
      if name in t.visited {
        return;
      }
      Mark(name, t, universe, stack);
      if name !in nodes {
        return;
      }
      Expand(name, t, universe, stack, room - 1);
    }

    /** visited[name] = true. */
    method Mark(name: string, t: Traversal, ghost universe: set<string>, ghost stack: seq<string>)
      requires t as object != this
      requires name in universe && name !in t.visited && Searching(Edges(nodes), t.visited, t.order, stack)
      requires stack != [] ==> Edge(Edges(nodes), stack[|stack| - 1], name)
      modifies t`visited
      ensures t.visited == old(t.visited) + {name}
      ensures |universe - t.visited| < |universe - old(t.visited)|
      ensures name !in stack
      ensures Searching(Edges(nodes), t.visited, t.order, if name in nodes then stack + [name] else stack)
    {
      hide Searching;
      UnvisitedShrink(universe, t.visited, name);
      if name in nodes {
        OpenNode(Edges(nodes), t.visited, t.order, stack, name);
      } else {
        MarkUnregistered(Edges(nodes), t.visited, t.order, stack, name);
      }
      t.visited := t.visited + {name};
    }

    /** The rest of a visit, for a registered node just marked: its dependencies, and then itself. */
    method Expand(name: string, t: Traversal, ghost universe: set<string>, ghost stack: seq<string>, ghost room: nat)
      requires t as object != this
      requires t.visited <= universe && |universe - t.visited| <= room && Within(nodes, universe)
      requires name in nodes && name !in stack && Searching(Edges(nodes), t.visited, t.order, stack + [name])
      modifies t
      ensures old(t.visited) <= t.visited <= universe && old(t.order) <= t.order
      ensures Searching(Edges(nodes), t.visited, t.order, stack)
      ensures var all := VisitedAll(nodes, S.Arranged(nodes[name].dependencies), old(Search(t.visited, t.order)), room);
              t.visited == all.visited && t.order == all.order + [name]
      decreases room, 2
    {
      hide *;
      VisitedStep(nodes, name, Search(t.visited, t.order), room);
      var deps := SortedDependencies(name);
      DependenciesWithin(nodes, universe, name, deps);
      VisitAll(deps, t, universe, stack + [name], room);
      FinishNode(Edges(nodes), t.visited, t.order, stack, name);
      t.order := t.order + [name];
    }

    /** The loops over dependencies and over all nodes. */
    method VisitAll(names: seq<string>, t: Traversal, ghost universe: set<string>, ghost stack: seq<string>, ghost room: nat)
      requires t as object != this
      requires t.visited <= universe && |universe - t.visited| <= room
      requires Within(nodes, universe) && forall n | n in names :: n in universe
      requires Searching(Edges(nodes), t.visited, t.order, stack)
      requires stack != [] ==> forall n | n in names :: Edge(Edges(nodes), stack[|stack| - 1], n)
      modifies t
      ensures old(t.visited) <= t.visited <= universe && forall n | n in names :: n in t.visited
      ensures old(t.order) <= t.order
      ensures Searching(Edges(nodes), t.visited, t.order, stack)
      ensures Search(t.visited, t.order) == VisitedAll(nodes, names, old(Search(t.visited, t.order)), room)
      decreases room, 1
    {
      for i := 0 to |names|
        invariant old(t.visited) <= t.visited <= universe && old(t.order) <= t.order
        invariant |universe - t.visited| <= room
        invariant Searching(Edges(nodes), t.visited, t.order, stack)
        invariant Search(t.visited, t.order) == VisitedAll(nodes, names[..i], old(Search(t.visited, t.order)), room)
        invariant forall j | 0 <= j < i :: names[j] in t.visited
      {
        ghost var before := t.visited;
        assert names[i] in names && names[..i + 1][..i] == names[..i];
        Visit(names[i], t, universe, stack, room);
        SubsetSize(universe - t.visited, universe - before);
      }
      assert names[..|names|] == names;
    }

    /** Terminates on every graph, lists each registered node exactly once, and puts each registered
        dependency first unless that dependency in turn depends on the node; all of them come first if and
        only if the graph has no cycle. */
    method TopologicalOrder() returns (order: seq<string>)
      ensures S.Distinct(order)
      ensures forall x :: x in order <==> x in nodes
      ensures Respects(Edges(nodes), order)
      ensures DependenciesFirst(Edges(nodes), order) <==> Acyclic(Edges(nodes))
      ensures order == StartupOrder(nodes)
    {
      var t := new Traversal();
      var unsorted := Listing(nodes.Keys);
      var names := S.Sort(unsorted);
      SameMembers(names, unsorted);
      ghost var g := Edges(nodes);
      ghost var universe := Universe(nodes);
      S.MultisetDistinct(unsorted, names);
      S.SortedListingUnique(names, Listed(nodes.Keys));
      VisitAll(names, t, universe, [], |universe|);
      order := t.order;
      forall x | x in nodes ensures x in order {
        assert x in names;
      }
      AcyclicOrder(g, order);
    }

    /** Marks everything that depends on target and is not marked yet. Whatever order the map is ranged
        over, target's dependents end up marked, and so do those of every newly marked node. */
    method FindDependents(target: string, affected: Marks, ghost failed: string, ghost room: nat)
      requires affected as object != this
      requires Sound(Edges(nodes), failed, affected.names) && |nodes.Keys - affected.names| <= room
      requires target == failed || DependsOn(Edges(nodes), target, failed)
      modifies affected
      ensures old(affected.names) <= affected.names && Sound(Edges(nodes), failed, affected.names)
      ensures forall x | Edge(Edges(nodes), x, target) :: x in affected.names
      ensures ClosedSince(Edges(nodes), old(affected.names), affected.names)
      decreases room
    {
      ghost var g := Edges(nodes);
      var rest := nodes.Keys;
      while rest != {}
        invariant rest <= nodes.Keys
        invariant old(affected.names) <= affected.names && Sound(g, failed, affected.names)
        invariant forall x | Edge(g, x, target) :: x in rest || x in affected.names
        invariant ClosedSince(g, old(affected.names), affected.names)
        decreases |rest|
      {
        var name :| name in rest;
        rest := rest - {name};
        if name in affected.names {
          continue;
        }
        var deps := nodes[name].dependencies;
        for j := 0 to |deps|
          invariant forall k | 0 <= k < j :: deps[k] != target
        {
          if deps[j] == target || deps[j] in affected.names {
            assert Edge(g, name, deps[j]);
            DependentOfMarked(g, failed, target, affected.names, name, deps[j]);
            SmallerSet(nodes.Keys - (affected.names + {name}), nodes.Keys - affected.names);
            SubsetSize(nodes.Keys - affected.names, nodes.Keys - old(affected.names));
            affected.names := affected.names + {name};
            FindDependents(name, affected, failed, room - 1);
            break;
          }
        }
      }
    }

    /** Exactly the registered nodes with a dependency path to the failed node, once each, sorted. */
    method ImpactAnalysis(failedNode: string) returns (result: seq<string>)
      ensures S.Sorted(result) && S.Distinct(result)
      ensures forall x :: x in result <==> x in nodes && DependsOn(Edges(nodes), x, failedNode)
    {
      var affected := new Marks();
      FindDependents(failedNode, affected, failedNode, |nodes.Keys|);
      Complete(Edges(nodes), failedNode, affected.names);
      var unsorted := Listing(affected.names);
      result := S.Sort(unsorted);
      S.MultisetDistinct(unsorted, result);
    }
  }

  ghost predicate Sound(g: Graph, failed: string, marks: set<string>) {
    forall x | x in marks :: x in g && DependsOn(g, x, failed)
  }

  /** Nodes marked since `before` have all their dependents marked. */
  ghost predicate ClosedSince(g: Graph, before: set<string>, marks: set<string>) {
    forall x, y | Edge(g, x, y) && y in marks && y !in before :: x in marks
  }

  lemma ClosedOnward(g: Graph, a: set<string>, b: set<string>, c: set<string>)
    requires ClosedSince(g, a, b) && ClosedSince(g, b, c) && b <= c
    ensures ClosedSince(g, a, c)
  {
  }

  lemma ClosedAround(g: Graph, before: set<string>, dep: string, marks: set<string>)
    requires ClosedSince(g, before + {dep}, marks) && forall x | Edge(g, x, dep) :: x in marks
    ensures ClosedSince(g, before, marks)
  {
  }

  lemma DependentOfMarked(g: Graph, failed: string, target: string, marks: set<string>, name: string, dep: string)
    requires Edge(g, name, dep) && Sound(g, failed, marks)
    requires target == failed || DependsOn(g, target, failed)
    requires dep == target || dep in marks
    ensures Sound(g, failed, marks + {name})
  {
    if dep == failed {
      DirectDependency(g, name, dep);
    } else {
      DependencyThrough(g, name, dep, failed);
    }
  }

  lemma Complete(g: Graph, failed: string, marks: set<string>)
    requires Sound(g, failed, marks) && ClosedSince(g, {}, marks)
    requires forall x | Edge(g, x, failed) :: x in marks
    ensures forall x :: x in marks <==> x in g && DependsOn(g, x, failed)
  {
    forall x | x in g && DependsOn(g, x, failed) ensures x in marks {
      var p :| IsPath(g, p) && p[0] == x && p[|p| - 1] == failed;
      ClosureComplete(g, failed, marks, p);
    }
  }

  lemma SmallerSet<T>(a: set<T>, b: set<T>)
    requires a < b
    ensures |a| < |b|
  {
    assert b == a + (b - a);
    assert b - a != {};
  }

  lemma SubsetSize<T>(a: set<T>, b: set<T>)
    requires a <= b
    ensures |a| <= |b|
  {
    assert b == a + (b - a);
  }

  lemma SameMembers(a: seq<string>, b: seq<string>)
    requires multiset(a) == multiset(b)
    ensures forall x :: x in a <==> x in b
  {
    forall x ensures x in a <==> x in b {
      assert x in multiset(a) <==> x in a;
      assert x in multiset(b) <==> x in b;
    }
  }
}
