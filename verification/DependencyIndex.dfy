/** packages/golib/health/dependency.go: the same impact question answered over a reverse index that
    AddService maintains. */
module DependencyIndex {
  import opened Dependencies
  import H = HealthGraph
  import S = Strings

  datatype Service = Service(dependsOn: seq<string>, dependedBy: seq<string>, critical: bool)

  type Services = map<string, Service>

  /** The loop body of AddService: make sure dep exists and lists name as a dependent. */
  function Link(v: Services, name: string, dep: string): Services {
    var s := if dep in v then v[dep] else Service([], [], false);
    v[dep := if name in s.dependedBy then s else s.(dependedBy := s.dependedBy + [name])]
  }

  function LinkAll(v: Services, name: string, deps: seq<string>): Services {
    if deps == [] then v else Link(LinkAll(v, name, deps[..|deps| - 1]), name, deps[|deps| - 1])
  }

  function Register(v: Services, name: string, critical: bool, deps: seq<string>): Services {
    var kept := if name in v then v[name].dependedBy else [];
    LinkAll(v[name := Service(deps, kept, critical)], name, deps)
  }

  datatype Registration = Registration(name: string, critical: bool, deps: seq<string>)

  function Build(history: seq<Registration>): Services {
    if history == [] then map[] else
    var last := history[|history| - 1];
    Register(Build(history[..|history| - 1]), last.name, last.critical, last.deps)
  }

  /** What a service has declared, and whether it is critical; nothing when it is unknown. */
  function Profile(v: Services, x: string): (seq<string>, bool) {
    if x in v then (v[x].dependsOn, v[x].critical) else ([], false)
  }

  lemma {:induction false} LinkAllKeepsProfiles(v: Services, name: string, deps: seq<string>, x: string)
    ensures Profile(LinkAll(v, name, deps), x) == Profile(v, x)
    ensures x in LinkAll(v, name, deps) <==> x in v || x in deps
  {
    if deps != [] {
      LinkAllKeepsProfiles(v, name, deps[..|deps| - 1], x);
      assert deps == deps[..|deps| - 1] + [deps[|deps| - 1]];
    }
  }

  /** A registration replaces what its service has declared and no other's, and makes the services it names
      known. */
  lemma LatestStands(history: seq<Registration>, r: Registration, x: string)
    ensures var v := Build(history + [r]);
            && Profile(v, x) == (if x == r.name then (r.deps, r.critical) else Profile(Build(history), x))
            && (x in v <==> x in Build(history) || x == r.name || x in r.deps)
  {
    assert (history + [r])[..|history|] == history;
    var b := Build(history);
    LinkAllKeepsProfiles(b[r.name := Service(r.deps, if r.name in b then b[r.name].dependedBy else [], r.critical)], r.name, r.deps, x);
  }

  ghost predicate ListedOnce(v: Services) {
    forall b | b in v :: S.Distinct(v[b].dependedBy)
  }

  lemma {:induction false} LinkAllListsOnce(v: Services, name: string, deps: seq<string>)
    requires ListedOnce(v)
    ensures ListedOnce(LinkAll(v, name, deps))
  {
    if deps != [] {
      LinkAllListsOnce(v, name, deps[..|deps| - 1]);
    }
  }

  /** However often a dependency is declared, the index lists its dependent once. */
  lemma {:induction false} IndexListsOnce(history: seq<Registration>)
    ensures ListedOnce(Build(history))
  {
    if history != [] {
      var before, r := history[..|history| - 1], history[|history| - 1];
      IndexListsOnce(before);
      var b := Build(before);
      LinkAllListsOnce(b[r.name := Service(r.deps, if r.name in b then b[r.name].dependedBy else [], r.critical)], r.name, r.deps);
    }
  }

  /** a declared b in some registration, perhaps one since replaced. */
  ghost predicate EverDeclared(history: seq<Registration>, a: string, b: string) {
    exists r :: r in history && r.name == a && b in r.deps
  }

  predicate Indexed(v: Services, a: string, b: string) {
    b in v && a in v[b].dependedBy
  }

  predicate Declared(v: Services, a: string, b: string) {
    a in v && b in v[a].dependsOn
  }

  lemma LinkIndexes(v: Services, name: string, dep: string)
    ensures forall a, b :: Indexed(Link(v, name, dep), a, b) <==> Indexed(v, a, b) || (a == name && b == dep)
  {
    var w := Link(v, name, dep);
    forall a, b ensures Indexed(w, a, b) <==> Indexed(v, a, b) || (a == name && b == dep) {
      if b == dep && dep in v {
        assert a in v[dep].dependedBy + [name] <==> a in v[dep].dependedBy || a == name;
      }
    }
  }

  lemma {:induction false} LinkAllIndexes(v: Services, name: string, deps: seq<string>)
    ensures var w := LinkAll(v, name, deps);
            && (forall a, b :: Indexed(w, a, b) <==> Indexed(v, a, b) || (a == name && b in deps))
            && (forall a, b :: Declared(w, a, b) <==> Declared(v, a, b))
            && (forall x | x in v :: x in w && w[x].dependsOn == v[x].dependsOn && w[x].critical == v[x].critical)
            && (forall x :: x in w <==> x in v || x in deps)
  {
    if deps != [] {
      var front, last := deps[..|deps| - 1], deps[|deps| - 1];
      LinkAllIndexes(v, name, front);
      LinkIndexes(LinkAll(v, name, front), name, last);
      assert deps == front + [last];
      assert forall b :: b in deps <==> b in front || b == last;
    }
  }

  lemma RegisterIndexes(v: Services, name: string, critical: bool, deps: seq<string>)
    ensures var w := Register(v, name, critical, deps);
            && (forall a, b :: Indexed(w, a, b) <==> Indexed(v, a, b) || (a == name && b in deps))
            && (forall a, b :: Declared(w, a, b) <==> if a == name then b in deps else Declared(v, a, b))
            && name in w && w[name].dependsOn == deps && w[name].critical == critical
  {
    LinkAllIndexes(v[name := Service(deps, if name in v then v[name].dependedBy else [], critical)], name, deps);
  }

  /** The reverse index holds every dependency any registration ever declared, and nothing else. */
  lemma {:induction false} IndexIsHistory(history: seq<Registration>, a: string, b: string)
    ensures Indexed(Build(history), a, b) <==> EverDeclared(history, a, b)
  {
    if history != [] {
      var last, before := history[|history| - 1], history[..|history| - 1];
      RegisterIndexes(Build(before), last.name, last.critical, last.deps);
      IndexIsHistory(before, a, b);
      assert history == before + [last];
      assert EverDeclared(history, a, b) <==> EverDeclared(before, a, b) || (last.name == a && b in last.deps);
    }
  }

  ghost predicate RegisteredOnce(history: seq<Registration>) {
    forall i, j | 0 <= i < j < |history| :: history[i].name != history[j].name
  }

  /** The index agrees with the dependencies as they now stand. */
  ghost predicate Exact(v: Services) {
    forall a, b :: Indexed(v, a, b) <==> Declared(v, a, b)
  }

  /** Registering a service keeps the index exact if and only if the new dependency list drops nothing
      from the one it replaces; a dropped dependency stays behind as a stale reverse edge. */
  lemma ExactIffNothingDropped(v: Services, name: string, critical: bool, deps: seq<string>)
    requires Exact(v)
    ensures Exact(Register(v, name, critical, deps)) <==> (name in v ==> forall d | d in v[name].dependsOn :: d in deps)
  {
    RegisterIndexes(v, name, critical, deps);
    var w := Register(v, name, critical, deps);
    if name in v && exists d :: d in v[name].dependsOn && d !in deps {
      var d :| d in v[name].dependsOn && d !in deps;
      assert Declared(v, name, d) && Indexed(w, name, d) && !Declared(w, name, d);
    }
  }

  lemma {:induction false} OnceMeansExact(history: seq<Registration>)
    requires RegisteredOnce(history)
    ensures Exact(Build(history))
    ensures forall x, b | (forall r | r in history :: r.name != x) :: !Declared(Build(history), x, b)
  {
    if history != [] {
      var last, before := history[|history| - 1], history[..|history| - 1];
      OnceMeansExact(before);
      RegisterIndexes(Build(before), last.name, last.critical, last.deps);
      assert history == before + [last];
      forall r | r in before ensures r.name != last.name {}
      assert forall b :: !Declared(Build(before), last.name, b);
      forall x, b | (forall r | r in history :: r.name != x) ensures !Declared(Build(history), x, b) {
        assert last in history;
        assert forall r | r in before :: r in history;
      }
    }
  }

  /** The graph the index describes, as edges from dependents to dependencies. */
  ghost function IndexGraph(v: Services): Graph {
    map a | a in Dependents(v) :: set b | b in v && Indexed(v, a, b)
  }

  ghost function Dependents(v: Services): set<string> {
    set b, a | b in v && a in v[b].dependedBy :: a
  }

  lemma IndexGraphEdges(v: Services, a: string, b: string)
    ensures Edge(IndexGraph(v), a, b) <==> Indexed(v, a, b)
  {
  }

  /** The health graph built from the same registrations, the latest winning. */
  function HealthNodes(history: seq<Registration>): map<string, H.Node> {
    if history == [] then map[] else
    var last := history[|history| - 1];
    HealthNodes(history[..|history| - 1])[last.name := H.Node("healthy", last.deps)]
  }

  lemma {:induction false} HealthNodesDeclare(history: seq<Registration>, a: string, b: string)
    ensures Edge(H.Edges(HealthNodes(history)), a, b) <==> Declared(Build(history), a, b)
  {
    if history != [] {
      var last, before := history[|history| - 1], history[..|history| - 1];
      RegisterIndexes(Build(before), last.name, last.critical, last.deps);
      HealthNodesDeclare(before, a, b);
    }
  }

  /** What ImpactOf answers: everything with a path of indexed edges to the service. */
  ghost predicate AnswersImpact(v: Services, s: string, answer: seq<string>) {
    && S.Sorted(answer) && S.Distinct(answer)
    && forall x :: x in answer <==> DependsOn(IndexGraph(v), x, s)
  }

  /** What ImpactAnalysis answers on the health graph. */
  ghost predicate AnswersAnalysis(nodes: map<string, H.Node>, s: string, answer: seq<string>) {
    && S.Sorted(answer) && S.Distinct(answer)
    && forall x :: x in answer <==> x in nodes && DependsOn(H.Edges(nodes), x, s)
  }

  lemma {:induction false} DeclaredWasDeclared(history: seq<Registration>, a: string, b: string)
    requires Declared(Build(history), a, b)
    ensures EverDeclared(history, a, b)
  {
    if history != [] {
      var last, before := history[|history| - 1], history[..|history| - 1];
      RegisterIndexes(Build(before), last.name, last.critical, last.deps);
      if a == last.name {
        assert last in history;
      } else {
        DeclaredWasDeclared(before, a, b);
      }
    }
  }

  /** Every dependency ever declared, those since dropped included, still follows from the ones that stand. */
  ghost predicate NothingLost(history: seq<Registration>) {
    forall a, b | EverDeclared(history, a, b) :: DependsOn(H.Edges(HealthNodes(history)), a, b)
  }

  /** The same names depend on s in both graphs. */
  ghost predicate SameFor(g: Graph, h: Graph, s: string) {
    forall x :: DependsOn(g, x, s) <==> DependsOn(h, x, s)
  }

  ghost predicate SameDependencies(history: seq<Registration>) {
    forall s :: SameFor(IndexGraph(Build(history)), H.Edges(HealthNodes(history)), s)
  }

  lemma IndexEdge(history: seq<Registration>, a: string, b: string)
    ensures Edge(IndexGraph(Build(history)), a, b) <==> EverDeclared(history, a, b)
  {
    IndexGraphEdges(Build(history), a, b);
    IndexIsHistory(history, a, b);
  }

  lemma HealthEdge(history: seq<Registration>, a: string, b: string)
    requires Edge(H.Edges(HealthNodes(history)), a, b)
    ensures Edge(IndexGraph(Build(history)), a, b)
  {
    HealthNodesDeclare(history, a, b);
    DeclaredWasDeclared(history, a, b);
    IndexEdge(history, a, b);
  }

  lemma SameWhenNothingLost(history: seq<Registration>, s: string)
    requires NothingLost(history)
    ensures SameFor(IndexGraph(Build(history)), H.Edges(HealthNodes(history)), s)
  {
    hide DependsOn, EverDeclared, Edge;
    var g, h := IndexGraph(Build(history)), H.Edges(HealthNodes(history));
    forall a, b | Edge(g, a, b) ensures DependsOn(h, a, b) {
      IndexEdge(history, a, b);
    }
    forall a, b | Edge(h, a, b) ensures DependsOn(g, a, b) {
      HealthEdge(history, a, b);
      DirectDependency(g, a, b);
    }
    forall x ensures DependsOn(g, x, s) <==> DependsOn(h, x, s) {
      if DependsOn(g, x, s) {
        EdgesImplied(g, h, x, s);
      } else if DependsOn(h, x, s) {
        EdgesImplied(h, g, x, s);
      }
    }
  }

  /** What reaches a service over the index also reaches it over the declared dependencies, for all
      services, if and only if nothing that matters was ever dropped. */
  lemma SameExactly(history: seq<Registration>)
    ensures SameDependencies(history) <==> NothingLost(history)
  {
    hide DependsOn, EverDeclared, Edge;
    var g, h := IndexGraph(Build(history)), H.Edges(HealthNodes(history));
    if SameDependencies(history) {
      forall a, b | EverDeclared(history, a, b) ensures DependsOn(h, a, b) {
        IndexEdge(history, a, b);
        DirectDependency(g, a, b);
        assert SameFor(g, h, b);
      }
    }
    if NothingLost(history) {
      forall s ensures SameFor(g, h, s) {
        SameWhenNothingLost(history, s);
      }
    }
  }

  /** For one service the two packages give the same list if and only if the same names reach it. */
  lemma ListsAgree(history: seq<Registration>, s: string, byIndex: seq<string>, bySearch: seq<string>)
    requires AnswersImpact(Build(history), s, byIndex) && AnswersAnalysis(HealthNodes(history), s, bySearch)
    ensures byIndex == bySearch <==> SameFor(IndexGraph(Build(history)), H.Edges(HealthNodes(history)), s)
  {
    var h := H.Edges(HealthNodes(history));
    DependentsAreNodes(h, s);
    hide DependsOn;
    assert forall x :: x in bySearch <==> DependsOn(h, x, s);
    if SameFor(IndexGraph(Build(history)), h, s) {
      S.SortedListingUnique(byIndex, bySearch);
    } else {
      var x :| !(DependsOn(IndexGraph(Build(history)), x, s) <==> DependsOn(h, x, s));
      assert !(x in byIndex <==> x in bySearch);
    }
  }

  /** The two packages answer alike for the service s. */
  ghost predicate AgreeOn(history: seq<Registration>, s: string) {
    forall byIndex, bySearch | AnswersImpact(Build(history), s, byIndex) && AnswersAnalysis(HealthNodes(history), s, bySearch) ::
      byIndex == bySearch
  }

  lemma AnswersExist(history: seq<Registration>, s: string) returns (byIndex: seq<string>, bySearch: seq<string>)
    ensures AnswersImpact(Build(history), s, byIndex) && AnswersAnalysis(HealthNodes(history), s, bySearch)
  {
    var g, h := IndexGraph(Build(history)), H.Edges(HealthNodes(history));
    DependentsAreNodes(g, s);
    hide DependsOn;
    byIndex := S.SortedListingExists(set x | x in g && DependsOn(g, x, s));
    bySearch := S.SortedListingExists(set x | x in HealthNodes(history) && DependsOn(h, x, s));
  }

  lemma AgreeOnExactly(history: seq<Registration>, s: string)
    ensures AgreeOn(history, s) <==> SameFor(IndexGraph(Build(history)), H.Edges(HealthNodes(history)), s)
  {
    hide SameFor, AnswersImpact, AnswersAnalysis;
    var byIndex, bySearch := AnswersExist(history, s);
    ListsAgree(history, s, byIndex, bySearch);
    forall p, q | AnswersImpact(Build(history), s, p) && AnswersAnalysis(HealthNodes(history), s, q)
      ensures p == q <==> SameFor(IndexGraph(Build(history)), H.Edges(HealthNodes(history)), s)
    {
      ListsAgree(history, s, p, q);
    }
  }

  /** For every history of registrations: ImpactOf and ImpactAnalysis agree on all services if and only if
      each dependency ever declared still follows, directly or through others, from those that stand. */
  lemma AnswersAgreeExactly(history: seq<Registration>)
    ensures (forall s :: AgreeOn(history, s)) <==> NothingLost(history)
  {
    hide AgreeOn, SameFor, NothingLost;
    SameExactly(history);
    forall s ensures AgreeOn(history, s) <==> SameFor(IndexGraph(Build(history)), H.Edges(HealthNodes(history)), s) {
      AgreeOnExactly(history, s);
    }
  }

  /** As long as the index is exact, and so when each service is registered once, they agree. */
  lemma AnswersAgree(history: seq<Registration>, s: string, byIndex: seq<string>, bySearch: seq<string>)
    requires Exact(Build(history))
    requires AnswersImpact(Build(history), s, byIndex) && AnswersAnalysis(HealthNodes(history), s, bySearch)
    ensures byIndex == bySearch
  {
    forall a, b | EverDeclared(history, a, b) ensures DependsOn(H.Edges(HealthNodes(history)), a, b) {
      IndexIsHistory(history, a, b);
      HealthNodesDeclare(history, a, b);
      DirectDependency(H.Edges(HealthNodes(history)), a, b);
    }
    SameWhenNothingLost(history, s);
    ListsAgree(history, s, byIndex, bySearch);
  }

  /** Registering any service again without its one dependency makes the two packages disagree. */
  lemma ReregistrationDisagrees(a: string, b: string, critical: bool)
    ensures var history := [Registration(a, critical, [b]), Registration(a, critical, [])];
            && DependsOn(IndexGraph(Build(history)), a, b)
            && !DependsOn(H.Edges(HealthNodes(history)), a, b)
            && !AgreeOn(history, b)
  {
    var first, second := Registration(a, critical, [b]), Registration(a, critical, []);
    var history := [first, second];
    assert first in history && first.name == a && b in first.deps;
    IndexEdge(history, a, b);
    DirectDependency(IndexGraph(Build(history)), a, b);
    var h := H.Edges(HealthNodes(history));
    assert history[..1] == [first] && history[..1][..0] == [];
    assert HealthNodes([first]) == map[a := H.Node("healthy", [b])];
    assert HealthNodes(history) == map[a := H.Node("healthy", [])];
    NoEdgesNoDependency(h, a, b);
    AgreeOnExactly(history, b);
    assert !SameFor(IndexGraph(Build(history)), h, b);
  }

  lemma NoEdgesNoDependency(h: Graph, a: string, b: string)
    requires forall x | x in h :: h[x] == {}
    ensures !DependsOn(h, a, b)
  {
    forall p ensures !IsPath(h, p) {
      if |p| >= 2 {
        assert !Edge(h, p[0], p[1]);
      }
    }
  }

  // The Go objects.

  class ServiceNode {
    const name: string
    var dependsOn: seq<string>
    var dependedBy: seq<string>
    var critical: bool

    constructor (name: string)
      ensures this.name == name && Value() == Service([], [], false)
    {
      this.name, dependsOn, dependedBy, critical := name, [], [], false;
    }

    function Value(): Service
      reads this
    {
      Service(dependsOn, dependedBy, critical)
    }
  }

  /** The `visited` map and `result` slice shared by the calls of collectDependents. */
  class Collected {
    var visited: set<string>
    var result: seq<string>
    constructor () ensures visited == {} && result == [] { visited, result := {}, []; }
  }

  /** `result` lists `visited`, each name once. */
  ghost predicate Lists(result: seq<string>, visited: set<string>) {
    S.Distinct(result) && forall x :: x in result <==> x in visited
  }

  ghost predicate Mirrors(g: Graph, v: Services) {
    forall a, b :: Edge(g, a, b) <==> Indexed(v, a, b)
  }

  lemma IndexGraphMirrors(v: Services)
    ensures Mirrors(IndexGraph(v), v)
  {
    forall a, b ensures Edge(IndexGraph(v), a, b) <==> Indexed(v, a, b) {
      IndexGraphEdges(v, a, b);
    }
  }

  ghost predicate Seen(deps: seq<string>, i: nat, visited: set<string>)
    requires i <= |deps|
  {
    forall j | 0 <= j < i :: deps[j] in visited
  }

  lemma SeenNone(deps: seq<string>, visited: set<string>)
    ensures Seen(deps, 0, visited)
  {
  }

  lemma SeenMore(deps: seq<string>, i: nat, a: set<string>, b: set<string>)
    requires i < |deps| && Seen(deps, i, a) && a <= b && deps[i] in b
    ensures Seen(deps, i + 1, b)
  {
  }

  lemma SeenAll(deps: seq<string>, visited: set<string>)
    requires Seen(deps, |deps|, visited)
    ensures forall x | x in deps :: x in visited
  {
  }

  /** At most `room` names are not yet visited. */
  ghost predicate Room(g: Graph, visited: set<string>, room: nat) {
    |g.Keys - visited| <= room
  }

  /** What the calls keep, `visited` having been `start` when the outermost of them began. */
  ghost predicate Progress(g: Graph, s: string, room: nat, start: set<string>, visited: set<string>, result: seq<string>) {
    start <= visited && Lists(result, visited) && H.Sound(g, s, visited) && H.ClosedSince(g, start, visited) && Room(g, start, room)
  }

  lemma Enter(g: Graph, s: string, room: nat, start: set<string>, visited: set<string>, result: seq<string>, dep: string, of: string)
    requires Progress(g, s, room, start, visited, result) && dep !in visited
    requires Edge(g, dep, of) && (of == s || DependsOn(g, of, s))
    ensures room > 0 && Progress(g, s, room - 1, visited + {dep}, visited + {dep}, result + [dep])
    ensures DependsOn(g, dep, s)
  {
    hide DependsOn;
    H.DependentOfMarked(g, s, of, visited, dep, of);
    H.SubsetSize(g.Keys - visited, g.Keys - start);
    H.SmallerSet(g.Keys - (visited + {dep}), g.Keys - visited);
    ThroughDependent(g, dep, of, s);
  }

  lemma Leave(g: Graph, s: string, room: nat, start: set<string>, before: set<string>, listed: seq<string>, dep: string,
              visited: set<string>, result: seq<string>)
    requires Progress(g, s, room, start, before, listed) && room > 0
    requires Progress(g, s, room - 1, before + {dep}, visited, result) && forall x | Edge(g, x, dep) :: x in visited
    ensures Progress(g, s, room, start, visited, result) && before <= visited && dep in visited
  {
    H.ClosedAround(g, before, dep, visited);
    H.ClosedOnward(g, start, before, visited);
  }

  /** Over the reverse index a name is declared by those its entry lists. */
  lemma DeclaredBy(g: Graph, v: Services, name: string)
    requires Mirrors(g, v)
    ensures forall x :: Edge(g, x, name) <==> name in v && x in v[name].dependedBy
  {
    assert forall x :: Edge(g, x, name) <==> Indexed(v, x, name);
  }

  lemma ThroughDependent(g: Graph, a: string, b: string, s: string)
    requires Edge(g, a, b) && (b == s || DependsOn(g, b, s))
    ensures DependsOn(g, a, s)
  {
    if b == s {
      DirectDependency(g, a, b);
    } else {
      DependencyThrough(g, a, b, s);
    }
  }

  class DependencyGraph {
    var services: map<string, ServiceNode>

    ghost predicate Valid()
      reads this, services.Values
    {
      forall k | k in services :: services[k].name == k
    }

    ghost function View(): Services
      reads this, services.Values
    {
      map k | k in services :: services[k].Value()
    }

    constructor ()
      ensures Valid() && View() == map[]
    {
      services := map[];
    }

    method AddService(name: string, critical: bool, dependsOn: seq<string>)
      requires Valid()
      modifies this, services.Values
      ensures Valid()
      ensures View() == Register(old(View()), name, critical, dependsOn)
    {
      hide Link;
      ghost var before := View();
      SetService(name, critical, dependsOn);
      ghost var start := View();
      for i := 0 to |dependsOn|
        invariant Valid()
        invariant forall k | k in services :: services[k] in old(services.Values) || fresh(services[k])
        invariant View() == LinkAll(start, name, dependsOn[..i])
      {
        assert dependsOn[..i + 1][..i] == dependsOn[..i];
        AddDependent(dependsOn[i], name);
      }
      assert dependsOn[..|dependsOn|] == dependsOn;
    }

    /** The node of a service, created empty when there is none. */
    method NodeFor(name: string) returns (node: ServiceNode)
      requires Valid()
      modifies this
      ensures Valid() && name in services && services[name] == node
      ensures forall k | k in services :: services[k] in old(services.Values) || fresh(services[k])
      ensures View() == if name in old(services) then old(View()) else old(View())[name := Service([], [], false)]
    {
      if name !in services {
        var added := new ServiceNode(name);
        services := services[name := added];
      }
      node := services[name];
    }

    /** AddService up to its loop. */
    method SetService(name: string, critical: bool, dependsOn: seq<string>)
      requires Valid()
      modifies this, services.Values
      ensures Valid()
      ensures forall k | k in services :: services[k] in old(services.Values) || fresh(services[k])
      ensures View() == old(View())[name := Service(dependsOn, if name in old(View()) then old(View())[name].dependedBy else [], critical)]
    {
      var node := NodeFor(name);
      Write(node, Service(dependsOn, node.dependedBy, critical));
    }

    /** Assigns the fields of one node. */
    method Write(node: ServiceNode, v: Service)
      requires Valid() && node.name in services && services[node.name] == node
      modifies node
      ensures Valid() && View() == old(View())[node.name := v]
    {
      ghost var before := View();
      node.dependsOn, node.dependedBy, node.critical := v.dependsOn, v.dependedBy, v.critical;
      forall k | k in services && k != node.name ensures services[k].Value() == before[k] {
        assert services[k].name == k;
      }
    }

    /** The body of AddService's loop. */
    method AddDependent(dep: string, name: string)
      requires Valid()
      modifies this, services.Values
      ensures Valid()
      ensures forall k | k in services :: services[k] in old(services.Values) || fresh(services[k])
      ensures View() == Link(old(View()), name, dep)
    {
      var depNode := NodeFor(dep);
      if name !in depNode.dependedBy {
        Write(depNode, depNode.Value().(dependedBy := depNode.dependedBy + [name]));
      }
    }

    /** `g` is the graph the index describes; `room` bounds the names not yet visited. */
    method CollectDependents(node: ServiceNode, c: Collected, ghost g: Graph, ghost s: string, ghost room: nat)
      requires Valid() && Mirrors(g, View()) && node.name in services && services[node.name] == node
      requires Progress(g, s, room, c.visited, c.visited, c.result)
      requires node.name == s || DependsOn(g, node.name, s)
      modifies c
      ensures Progress(g, s, room, old(c.visited), c.visited, c.result)
      ensures forall x | Edge(g, x, node.name) :: x in c.visited
      decreases room, 1
    {
      hide DependsOn, Edge, Indexed, Mirrors, Seen, Progress;
      var deps := node.dependedBy;
      SeenNone(deps, c.visited);
      DeclaredBy(g, View(), node.name);
      for i := 0 to |deps|
        invariant Progress(g, s, room, old(c.visited), c.visited, c.result)
        invariant Seen(deps, i, c.visited)
      {
        ghost var before := c.visited;
        CollectDependent(deps[i], c, g, s, node.name, room, old(c.visited));
        SeenMore(deps, i, before, c.visited);
      }
      SeenAll(deps, c.visited);
    }

    /** The body of collectDependents' loop. */
    method CollectDependent(dep: string, c: Collected, ghost g: Graph, ghost s: string, ghost of: string, ghost room: nat,
                            ghost start: set<string>)
      requires Valid() && Mirrors(g, View()) && Edge(g, dep, of) && (of == s || DependsOn(g, of, s))
      requires Progress(g, s, room, start, c.visited, c.result)
      modifies c
      ensures Progress(g, s, room, start, c.visited, c.result)
      ensures old(c.visited) <= c.visited && dep in c.visited
      decreases room, 0
    {
      hide DependsOn, Edge, Indexed, Mirrors, Progress;
      if dep in c.visited {
        return;
      }
      Enter(g, s, room, start, c.visited, c.result, dep, of);
      DeclaredBy(g, View(), dep);
      ghost var before, listed := c.visited, c.result;
      c.visited := c.visited + {dep};
      c.result := c.result + [dep];
      if dep in services {
        CollectDependents(services[dep], c, g, s, room - 1);
      }
      Leave(g, s, room, start, before, listed, dep, c.visited, c.result);
    }

    /** Everything that reaches the service over the reverse index, once each, sorted; nothing for an
        unknown service. */
    method ImpactOf(serviceName: string) returns (answer: seq<string>)
      requires Valid()
      ensures AnswersImpact(View(), serviceName, answer)
    {
      ghost var v := View();
      IndexGraphMirrors(v);
      if serviceName !in services {
        UnknownHasNoImpact(v, serviceName);
        return [];
      }
      var collected := Collect(serviceName, IndexGraph(v));
      answer := S.Sort(collected);
      S.MultisetDistinct(collected, answer);
    }

    method Collect(serviceName: string, ghost g: Graph) returns (result: seq<string>)
      requires Valid() && serviceName in services && Mirrors(g, View())
      ensures S.Distinct(result) && forall x :: x in result <==> DependsOn(g, x, serviceName)
    {
      var c := new Collected();
      CollectDependents(services[serviceName], c, g, serviceName, |g.Keys|);
      H.Complete(g, serviceName, c.visited);
      DependentsAreNodes(g, serviceName);
      result := c.result;
    }
  }

  lemma UnknownHasNoImpact(v: Services, s: string)
    requires s !in v
    ensures AnswersImpact(v, s, [])
  {
    var g := IndexGraph(v);
    forall x ensures !Edge(g, x, s) {
      IndexGraphEdges(v, x, s);
    }
    NoDependents(g, s);
  }

  lemma DependentsAreNodes(g: Graph, s: string)
    ensures forall x | DependsOn(g, x, s) :: x in g
  {
    forall x | DependsOn(g, x, s) ensures x in g {
      var p :| IsPath(g, p) && p[0] == x && p[|p| - 1] == s;
      assert Edge(g, p[0], p[1]);
    }
  }

  lemma NoDependents(g: Graph, s: string)
    requires forall x :: !Edge(g, x, s)
    ensures forall x :: !DependsOn(g, x, s)
  {
    DependentsAreNodes(g, s);
    H.Complete(g, s, {});
  }
}
