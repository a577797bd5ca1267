/** Dependency graphs as both health packages see them: who declares a dependency on whom. */
module Dependencies {
  type Graph = map<string, set<string>>

  predicate Edge(g: Graph, a: string, b: string) {
    a in g && b in g[a]
  }

  /** p[0] declares p[1], which declares p[2], and so on; at least one edge. */
  ghost predicate IsPath(g: Graph, p: seq<string>) {
    |p| >= 2 && forall i | 0 <= i < |p| - 1 :: Edge(g, p[i], p[i + 1])
  }

  /** a depends on b, directly or through others. */
  ghost predicate DependsOn(g: Graph, a: string, b: string) {
    exists p :: IsPath(g, p) && p[0] == a && p[|p| - 1] == b
  }

  ghost predicate Acyclic(g: Graph) {
    forall a | a in g :: !DependsOn(g, a, a)
  }

  lemma DirectDependency(g: Graph, a: string, b: string)
    requires Edge(g, a, b)
    ensures DependsOn(g, a, b)
  {
    assert IsPath(g, [a, b]);
  }

  lemma DependencyThrough(g: Graph, a: string, b: string, c: string)
    requires Edge(g, a, b) && DependsOn(g, b, c)
    ensures DependsOn(g, a, c)
  {
    var p :| IsPath(g, p) && p[0] == b && p[|p| - 1] == c;
    var q := [a] + p;
    assert forall i | 1 <= i < |q| - 1 :: Edge(g, p[i - 1], p[i]) && q[i] == p[i - 1] && q[i + 1] == p[i];
    assert IsPath(g, q);
  }

  lemma DependencyIsTransitive(g: Graph, a: string, b: string, c: string)
    requires DependsOn(g, a, b) && DependsOn(g, b, c)
    ensures DependsOn(g, a, c)
  {
    var p :| IsPath(g, p) && p[0] == a && p[|p| - 1] == b;
    var q :| IsPath(g, q) && q[0] == b && q[|q| - 1] == c;
    var r := p[..|p| - 1] + q;
    forall i | 0 <= i < |r| - 1 ensures Edge(g, r[i], r[i + 1]) {
      if i < |p| - 1 {
        assert r[i] == p[i] && r[i + 1] == p[i + 1];
      } else {
        assert r[i] == q[i - (|p| - 1)] && r[i + 1] == q[i + 1 - (|p| - 1)];
      }
    }
    assert IsPath(g, r) && r[0] == a && r[|r| - 1] == c;
  }

  /** Where each edge of g is a dependency of h, so is each path. */
  lemma {:induction false} PathImplied(g: Graph, h: Graph, p: seq<string>)
    requires IsPath(g, p) && forall a, b | Edge(g, a, b) :: DependsOn(h, a, b)
    ensures DependsOn(h, p[0], p[|p| - 1])
    decreases |p|
  {
    assert Edge(g, p[0], p[1]);
    if |p| > 2 {
      assert IsPath(g, p[1..]);
      PathImplied(g, h, p[1..]);
      DependencyIsTransitive(h, p[0], p[1], p[|p| - 1]);
    }
  }

  lemma EdgesImplied(g: Graph, h: Graph, a: string, b: string)
    requires DependsOn(g, a, b) && forall x, y | Edge(g, x, y) :: DependsOn(h, x, y)
    ensures DependsOn(h, a, b)
  {
    var p :| IsPath(g, p) && p[0] == a && p[|p| - 1] == b;
    PathImplied(g, h, p);
  }

  /** A set that has every dependent of t, and with each member its dependents, has all that depend on t. */
  lemma {:induction false} ClosureComplete(g: Graph, t: string, marks: set<string>, p: seq<string>)
    requires IsPath(g, p) && p[|p| - 1] == t
    requires forall x | Edge(g, x, t) :: x in marks
    requires forall x, y | Edge(g, x, y) && y in marks :: x in marks
    ensures p[0] in marks
    decreases |p|
  {
    if |p| > 2 {
      assert IsPath(g, p[1..]);
      ClosureComplete(g, t, marks, p[1..]);
      assert Edge(g, p[0], p[1]);
    }
  }

  /** Nothing but edges matters to who depends on whom. */
  lemma SameEdgesSameDependency(g: Graph, h: Graph, a: string, b: string)
    requires forall x, y :: Edge(g, x, y) <==> Edge(h, x, y)
    ensures DependsOn(g, a, b) <==> DependsOn(h, a, b)
  {
    assert forall p :: IsPath(g, p) <==> IsPath(h, p);
  }
}
