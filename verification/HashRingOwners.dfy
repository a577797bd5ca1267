/** Whom packages/golib/hashring/hashring.go gives a key to, in terms of hashes alone, and why virtual nodes
    do not collide unless hashes do. */
module HashRingOwners {
  import opened Decimal
  import opened HashRing
  import opened Wrappers

  /** p is the first point going clockwise from k: the least at or after it, or else the least of all. */
  ghost predicate NextFrom(ring: seq<Point>, k: nat, p: Point) {
    && p in ring
    && if p.hash >= k then forall q | q in ring && q.hash >= k :: p.hash <= q.hash
       else forall q | q in ring :: q.hash < k && p.hash <= q.hash
  }

  /** The owner of a key is the node of the next point, so of one the key's hash does not pass. */
  lemma OwnerIsNext(h: Hash, ring: seq<Point>, key: string) returns (p: Point)
    requires SortedByHash(ring) && ring != []
    ensures NextFrom(ring, h(key), p)
    ensures Preference(h, ring, key) != [] && Preference(h, ring, key)[0] == p.node
  {
    var k := h(key);
    var i := First(ring, k);
    FirstSplits(ring, k);
    p := if i < |ring| then ring[i] else ring[0];
    assert Clockwise(ring, k)[0] == p;
    PreferNonEmpty(Clockwise(ring, k));
    forall q | q in ring ensures q.hash < k || (i < |ring| && p.hash <= q.hash) {
      var j :| 0 <= j < |ring| && ring[j] == q;
    }
    forall q | q in ring && i == |ring| ensures p.hash <= q.hash {
      var j :| 0 <= j < |ring| && ring[j] == q;
    }
  }

  lemma NotYetPreferred(walk: seq<Point>, j: nat)
    requires j < |walk| && forall m | 0 <= m < j :: walk[m].node != walk[j].node
    ensures Prefer(walk[..j + 1]) == Prefer(walk[..j]) + [walk[j].node]
  {
    assert walk[..j + 1][..j] == walk[..j];
    PreferMembers(walk[..j]);
  }

  /** Of two nodes the one whose first point comes earlier in the walk is preferred. */
  lemma PreferredEarlier(walk: seq<Point>, i: nat, j: nat) returns (a: nat, b: nat)
    requires i < j < |walk|
    requires forall m | 0 <= m < i :: walk[m].node != walk[i].node
    requires forall m | 0 <= m < j :: walk[m].node != walk[j].node
    ensures a < b < |Prefer(walk)| && Prefer(walk)[a] == walk[i].node && Prefer(walk)[b] == walk[j].node
  {
    hide Prefer;
    NotYetPreferred(walk, i);
    NotYetPreferred(walk, j);
    PreferOfPrefix(walk[..j], i + 1);
    assert walk[..j][..i + 1] == walk[..i + 1];
    PreferOfPrefix(walk, j + 1);
    a, b := |Prefer(walk[..i])|, |Prefer(walk[..j])|;
  }

  // Virtual nodes.

  lemma ShorterDiffers(a: string, r: string, b: string, s: string)
    requires |a| < |b| && AllDigits(r)
    ensures a + ":" + r != b + ":" + s
  {
    var t, u := a + ":" + r, b + ":" + s;
    if |t| == |u| {
      assert u[|b|] == ':' && t[|b|] == r[|b| - |a| - 1];
    }
  }

  lemma LastColon(a: string, r: string, b: string, s: string)
    requires a + ":" + r == b + ":" + s && AllDigits(r) && AllDigits(s)
    ensures a == b && r == s
  {
    if |a| < |b| {
      ShorterDiffers(a, r, b, s);
    } else if |b| < |a| {
      ShorterDiffers(b, s, a, r);
    } else {
      var t := a + ":" + r;
      assert t[..|a|] == a && t[..|b|] == b && t[|a| + 1..] == r && t[|b| + 1..] == s;
    }
  }

  function Text(node: string, r: nat): string {
    node + ":" + Digits(r)
  }

  /** The text a virtual node is hashed from names its node and its number. */
  lemma TextNamesPoint(node: string, r: nat, other: string, s: nat)
    ensures Text(node, r) == Text(other, s) <==> node == other && r == s
  {
    DigitsRoundTrip(r);
    DigitsRoundTrip(s);
    if Text(node, r) == Text(other, s) {
      LastColon(node, Digits(r), other, Digits(s));
    }
  }

  /** The hash tells apart the different texts that these nodes are hashed from. */
  ghost predicate Injective(h: Hash, replicas: nat, nodes: set<string>) {
    forall n, m, r: nat, s: nat | n in nodes && m in nodes && r < replicas && s < replicas ::
      h(Text(n, r)) == h(Text(m, s)) ==> Text(n, r) == Text(m, s)
  }

  lemma PointOf(h: Hash, replicas: nat, nodes: set<string>, ring: seq<Point>, p: Point) returns (r: nat)
    requires RingOf(h, replicas, nodes, ring) && p in ring
    ensures p.node in nodes && r < replicas && p.hash == HashKey(h, p.node, r)
  {
    hide HashKey;
    assert p in multiset(ring);
    assert p in multiset(Points(h, p.node, replicas));
    assert p in Points(h, p.node, replicas);
    r :| 0 <= r < replicas && Points(h, p.node, replicas)[r] == p;
  }

  lemma HashNamesPoint(h: Hash, replicas: nat, nodes: set<string>, node: string, r: nat, other: string, s: nat)
    requires Injective(h, replicas, nodes) && node in nodes && other in nodes && r < replicas && s < replicas
    ensures HashKey(h, node, r) == HashKey(h, other, s) <==> node == other && r == s
  {
    TextNamesPoint(node, r, other, s);
    assert HashKey(h, node, r) == h(Text(node, r)) && HashKey(h, other, s) == h(Text(other, s));
  }

  /** Under a hash without collisions no two virtual nodes collide, of two nodes */
  lemma NodesApart(h: Hash, replicas: nat, nodes: set<string>, ring: seq<Point>)
    requires Injective(h, replicas, nodes) && RingOf(h, replicas, nodes, ring)
    ensures NoCollision(ring)
  {
    hide RingOf, HashKey, Injective;
    forall p, q | p in ring && q in ring && p.hash == q.hash ensures p.node == q.node {
      var i := PointOf(h, replicas, nodes, ring, p);
      var j := PointOf(h, replicas, nodes, ring, q);
      HashNamesPoint(h, replicas, nodes, p.node, i, q.node, j);
    }
  }

  /** or of one: it has as many places on the ring as replicas. */
  lemma ReplicasApart(h: Hash, replicas: nat, nodes: set<string>, node: string, r: nat, s: nat)
    requires Injective(h, replicas, nodes) && node in nodes && r < s < replicas
    ensures Points(h, node, replicas)[r].hash != Points(h, node, replicas)[s].hash
  {
    HashNamesPoint(h, replicas, nodes, node, r, node, s);
  }
}
