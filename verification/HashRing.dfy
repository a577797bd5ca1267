/** packages/golib/hashring/hashring.go: consistent hashing with virtual nodes. SHA-256 is any function. */
module HashRing {
  import opened Decimal
  import opened Wrappers

  type Hash = string -> nat

  datatype Point = Point(hash: nat, node: string)

  function HashKey(h: Hash, node: string, replica: nat): nat {
    h(node + ":" + Digits(replica))
  }

  /** The virtual nodes of one node. */
  function Points(h: Hash, node: string, replicas: nat): seq<Point> {
    seq(replicas, i requires 0 <= i => Point(HashKey(h, node, i), node))
  }

  ghost predicate SortedByHash(ring: seq<Point>) {
    forall i, j | 0 <= i < j < |ring| :: ring[i].hash <= ring[j].hash
  }

  /** ring is some arrangement, sorted by hash, of exactly the virtual nodes of these nodes. */
  ghost predicate RingOf(h: Hash, replicas: nat, nodes: set<string>, ring: seq<Point>) {
    && SortedByHash(ring)
    && forall p :: multiset(ring)[p] == if p.node in nodes then multiset(Points(h, p.node, replicas))[p] else 0
  }

  /** No virtual nodes of two different nodes fall on the same hash. */
  ghost predicate NoCollision(ring: seq<Point>) {
    forall p, q | p in ring && q in ring && p.hash == q.hash :: p.node == q.node
  }

  /** sort.Search: how many leading points lie before k. */
  function First(ring: seq<Point>, k: nat): (i: nat)
    ensures i <= |ring|
  {
    if ring == [] || ring[0].hash >= k then 0 else 1 + First(ring[1..], k)
  }

  /** The ring as met going clockwise from k. */
  function Clockwise(ring: seq<Point>, k: nat): seq<Point> {
    ring[First(ring, k)..] + ring[..First(ring, k)]
  }

  /** The nodes of a walk, each at its first appearance. */
  function Prefer(walk: seq<Point>): seq<string> {
    if walk == [] then [] else
    var before, node := Prefer(walk[..|walk| - 1]), walk[|walk| - 1].node;
    if node in before then before else before + [node]
  }

  /** A key's nodes in order of preference: Get takes the first, GetN the first n. */
  function Preference(h: Hash, ring: seq<Point>, key: string): seq<string> {
    Prefer(Clockwise(ring, h(key)))
  }

  function WithoutNode(ring: seq<Point>, node: string): seq<Point> {
    if ring == [] then [] else
    var before, p := WithoutNode(ring[..|ring| - 1], node), ring[|ring| - 1];
    if p.node == node then before else before + [p]
  }

  function Without(names: seq<string>, name: string): seq<string> {
    if names == [] then [] else
    var before, n := Without(names[..|names| - 1], name), names[|names| - 1];
    if n == name then before else before + [n]
  }

  // First splits a sorted ring.

  lemma {:induction false} FirstSplits(ring: seq<Point>, k: nat)
    requires SortedByHash(ring)
    ensures forall i | 0 <= i < First(ring, k) :: ring[i].hash < k
    ensures forall i | First(ring, k) <= i < |ring| :: ring[i].hash >= k
  {
    if ring != [] && ring[0].hash < k {
      FirstSplits(ring[1..], k);
      forall i | 0 <= i < First(ring, k) ensures ring[i].hash < k {
        assert i > 0 ==> ring[i] == ring[1..][i - 1];
      }
      forall i | First(ring, k) <= i < |ring| ensures ring[i].hash >= k {
        assert ring[i] == ring[1..][i - 1];
      }
    }
  }

  lemma {:induction false} FirstIsUnique(a: seq<Point>, b: seq<Point>, k: nat)
    requires forall i | 0 <= i < |a| :: a[i].hash < k
    requires forall i | 0 <= i < |b| :: b[i].hash >= k
    ensures First(a + b, k) == |a|
  {
    if a == [] {
      assert a + b == b;
    } else {
      assert (a + b)[1..] == a[1..] + b;
      FirstIsUnique(a[1..], b, k);
    }
  }

  // Taking a node out commutes with everything.

  lemma {:induction false} WithoutNodeConcat(a: seq<Point>, b: seq<Point>, node: string)
    ensures WithoutNode(a + b, node) == WithoutNode(a, node) + WithoutNode(b, node)
  {
    if b == [] {
      assert a + b == a;
    } else {
      assert (a + b)[..|a + b| - 1] == a + b[..|b| - 1];
      WithoutNodeConcat(a, b[..|b| - 1], node);
    }
  }

  lemma {:induction false} WithoutNodeMembers(ring: seq<Point>, node: string)
    ensures forall p :: p in WithoutNode(ring, node) <==> p in ring && p.node != node
  {
    if ring != [] {
      WithoutNodeMembers(ring[..|ring| - 1], node);
      assert ring == ring[..|ring| - 1] + [ring[|ring| - 1]];
      assert forall p :: p in ring <==> p in ring[..|ring| - 1] || p == ring[|ring| - 1];
    }
  }

  lemma {:induction false} WithoutNodeSorted(ring: seq<Point>, node: string)
    requires SortedByHash(ring)
    ensures SortedByHash(WithoutNode(ring, node))
  {
    if ring != [] {
      var before := ring[..|ring| - 1];
      WithoutNodeSorted(before, node);
      WithoutNodeMembers(before, node);
      forall p | p in WithoutNode(before, node) ensures p.hash <= ring[|ring| - 1].hash {
        assert p in before;
      }
    }
  }

  lemma {:induction false} WithoutNodeCounts(ring: seq<Point>, node: string, p: Point)
    ensures multiset(WithoutNode(ring, node))[p] == if p.node == node then 0 else multiset(ring)[p]
  {
    if ring != [] {
      WithoutNodeCounts(ring[..|ring| - 1], node, p);
      assert ring == ring[..|ring| - 1] + [ring[|ring| - 1]];
    }
  }

  lemma ClockwiseWithout(ring: seq<Point>, node: string, k: nat)
    requires SortedByHash(ring)
    ensures Clockwise(WithoutNode(ring, node), k) == WithoutNode(Clockwise(ring, k), node)
  {
    var i := First(ring, k);
    var a, b := WithoutNode(ring[..i], node), WithoutNode(ring[i..], node);
    FirstSplits(ring, k);
    assert ring == ring[..i] + ring[i..];
    WithoutNodeConcat(ring[..i], ring[i..], node);
    WithoutNodeConcat(ring[i..], ring[..i], node);
    WithoutNodeMembers(ring[..i], node);
    WithoutNodeMembers(ring[i..], node);
    forall j | 0 <= j < |a| ensures a[j].hash < k {
      assert a[j] in ring[..i];
    }
    forall j | 0 <= j < |b| ensures b[j].hash >= k {
      assert b[j] in ring[i..];
    }
    FirstIsUnique(a, b, k);
  }

  lemma {:induction false} PreferMembers(walk: seq<Point>)
    ensures forall n :: n in Prefer(walk) <==> exists p :: p in walk && p.node == n
    ensures forall i, j | 0 <= i < j < |Prefer(walk)| :: Prefer(walk)[i] != Prefer(walk)[j]
  {
    if walk != [] {
      var front, last := walk[..|walk| - 1], walk[|walk| - 1];
      PreferMembers(front);
      assert walk == front + [last];
      forall n ensures n in Prefer(walk) <==> exists p :: p in walk && p.node == n {
        if n in Prefer(front) {
          var p :| p in front && p.node == n;
          assert p in walk;
        }
        assert last in walk;
      }
    }
  }

  lemma {:induction false} WithoutMembers(names: seq<string>, name: string)
    ensures forall n :: n in Without(names, name) <==> n in names && n != name
  {
    if names != [] {
      WithoutMembers(names[..|names| - 1], name);
      assert names == names[..|names| - 1] + [names[|names| - 1]];
      assert forall n :: n in names <==> n in names[..|names| - 1] || n == names[|names| - 1];
    }
  }

  lemma {:induction false} PreferWithout(walk: seq<Point>, node: string)
    ensures Prefer(WithoutNode(walk, node)) == Without(Prefer(walk), node)
  {
    if walk != [] {
      var front, p := walk[..|walk| - 1], walk[|walk| - 1];
      PreferWithout(front, node);
      WithoutMembers(Prefer(front), node);
      if p.node != node {
        assert WithoutNode(walk, node)[..|WithoutNode(front, node)|] == WithoutNode(front, node);
      }
      if p.node !in Prefer(front) {
        assert Prefer(walk)[..|Prefer(front)|] == Prefer(front);
      }
    }
  }

  /** Removing a node takes it out of every key's preference order and changes nothing else, whatever
      the hashes: every key keeps its other nodes in the same order. */
  lemma RemoveOnlyRemoves(h: Hash, ring: seq<Point>, node: string, key: string)
    requires SortedByHash(ring)
    ensures Preference(h, WithoutNode(ring, node), key) == Without(Preference(h, ring, key), node)
  {
    ClockwiseWithout(ring, node, h(key));
    PreferWithout(Clockwise(ring, h(key)), node);
  }

  lemma {:induction false} WithoutFirst(names: seq<string>, name: string)
    requires names != [] && names[0] != name
    ensures Without(names, name) != [] && Without(names, name)[0] == names[0]
  {
    if |names| > 1 {
      WithoutFirst(names[..|names| - 1], name);
    } else {
      assert names[..0] == [];
    }
  }

  /** So Get changes for no key that the removed node did not own. */
  lemma RemoveMovesOnlyItsKeys(h: Hash, ring: seq<Point>, node: string, key: string)
    requires SortedByHash(ring)
    requires Preference(h, ring, key) != [] && Preference(h, ring, key)[0] != node
    ensures Preference(h, WithoutNode(ring, node), key) != []
    ensures Preference(h, WithoutNode(ring, node), key)[0] == Preference(h, ring, key)[0]
  {
    RemoveOnlyRemoves(h, ring, node, key);
    WithoutFirst(Preference(h, ring, key), node);
  }

  // Without collisions the sorted arrangement is unique.

  lemma SamePointFirst(a: seq<Point>, b: seq<Point>)
    requires SortedByHash(a) && SortedByHash(b) && multiset(a) == multiset(b) && NoCollision(a) && a != [] && b != []
    ensures a[0] == b[0]
  {
    assert a[0] in multiset(b) && b[0] in multiset(a);
    assert a[0] in b && b[0] in a;
    var i :| 0 <= i < |b| && b[i] == a[0];
    var j :| 0 <= j < |a| && a[j] == b[0];
    assert b[0].hash <= a[0].hash && a[0].hash <= b[0].hash;
  }

  lemma {:induction false} ArrangementUnique(a: seq<Point>, b: seq<Point>)
    requires SortedByHash(a) && SortedByHash(b) && multiset(a) == multiset(b) && NoCollision(a)
    ensures a == b
  {
    hide SortedByHash, NoCollision;
    SameSize(a, b);
    if a != [] {
      SamePointFirst(a, b);
      SameTails(a, b);
      TailKeeps(a);
      TailKeeps(b);
      ArrangementUnique(a[1..], b[1..]);
      assert a == [a[0]] + a[1..] && b == [b[0]] + b[1..];
    }
  }

  lemma SameSize(a: seq<Point>, b: seq<Point>)
    requires multiset(a) == multiset(b)
    ensures |a| == |b|
  {
    assert |a| == |multiset(a)| && |multiset(b)| == |b|;
  }

  lemma SameTails(a: seq<Point>, b: seq<Point>)
    requires multiset(a) == multiset(b) && a != [] && b != [] && a[0] == b[0]
    ensures multiset(a[1..]) == multiset(b[1..])
  {
    assert a == [a[0]] + a[1..] && b == [b[0]] + b[1..];
    assert multiset(a[1..]) == multiset(a) - multiset{a[0]} == multiset(b[1..]);
  }

  lemma TailKeeps(a: seq<Point>)
    requires a != [] && SortedByHash(a)
    ensures SortedByHash(a[1..]) && (NoCollision(a) ==> NoCollision(a[1..]))
  {
    assert forall p | p in a[1..] :: p in a;
  }

  lemma RingUnique(h: Hash, replicas: nat, nodes: set<string>, a: seq<Point>, b: seq<Point>)
    requires RingOf(h, replicas, nodes, a) && RingOf(h, replicas, nodes, b) && NoCollision(a)
    ensures a == b
  {
    hide Points, NoCollision, SortedByHash;
    assert multiset(a) == multiset(b) by {
      forall p: Point ensures multiset(a)[p] == multiset(b)[p] {
      }
    }
    ArrangementUnique(a, b);
  }

  /** Rings over the same nodes are equal, whatever additions and removals built them, so every key has
      the same preference order in both. */
  lemma HistoryDoesNotMatter(h: Hash, replicas: nat, nodes: set<string>, a: seq<Point>, b: seq<Point>, key: string)
    requires RingOf(h, replicas, nodes, a) && RingOf(h, replicas, nodes, b) && NoCollision(a)
    ensures Preference(h, a, key) == Preference(h, b, key)
  {
    RingUnique(h, replicas, nodes, a, b);
  }

  lemma RingShrinks(h: Hash, replicas: nat, nodes: set<string>, ring: seq<Point>, node: string)
    requires RingOf(h, replicas, nodes, ring)
    ensures RingOf(h, replicas, nodes - {node}, WithoutNode(ring, node))
  {
    var after := WithoutNode(ring, node);
    WithoutNodeSorted(ring, node);
    forall p: Point
      ensures multiset(after)[p] == if p.node in nodes - {node} then multiset(Points(h, p.node, replicas))[p] else 0
    {
      WithoutNodeCounts(ring, node, p);
    }
  }

  /** Taking the added node out again gives back the ring, when the nodes there before do not collide. */
  lemma AddThenRemove(h: Hash, replicas: nat, nodes: set<string>, before: seq<Point>, node: string, after: seq<Point>)
    requires RingOf(h, replicas, nodes, before) && node !in nodes
    requires RingOf(h, replicas, nodes + {node}, after) && NoCollision(before)
    ensures WithoutNode(after, node) == before
  {
    hide RingOf;
    RingShrinks(h, replicas, nodes + {node}, after, node);
    assert nodes + {node} - {node} == nodes;
    RingUnique(h, replicas, nodes, before, WithoutNode(after, node));
  }

  /** Adding a node inserts it into every key's preference order and changes nothing else, so a key
      that Get moves at all moves to the new node. */
  lemma AddOnlyInserts(h: Hash, replicas: nat, nodes: set<string>, before: seq<Point>, node: string, after: seq<Point>, key: string)
    requires RingOf(h, replicas, nodes, before) && node !in nodes
    requires RingOf(h, replicas, nodes + {node}, after) && NoCollision(before)
    ensures Without(Preference(h, after, key), node) == Preference(h, before, key)
    ensures var order := Preference(h, after, key);
            order != [] && order[0] != node ==> Preference(h, before, key) != [] && order[0] == Preference(h, before, key)[0]
  {
    AddThenRemove(h, replicas, nodes, before, node, after);
    RemoveOnlyRemoves(h, after, node, key);
    var order := Preference(h, after, key);
    if order != [] && order[0] != node {
      WithoutFirst(order, node);
    }
  }

  // Without that condition neither holds: the sort may put either of two colliding points first.

  /** The point at index j brought forward to index i. */
  function Forward(ring: seq<Point>, i: nat, j: nat): seq<Point>
    requires i <= j < |ring|
  {
    ring[..i] + [ring[j]] + ring[i..j] + ring[j + 1..]
  }

  lemma ForwardKeeps(ring: seq<Point>, i: nat, j: nat)
    requires SortedByHash(ring) && i <= j < |ring| && ring[i].hash == ring[j].hash
    ensures SortedByHash(Forward(ring, i, j)) && multiset(Forward(ring, i, j)) == multiset(ring)
  {
    var f := Forward(ring, i, j);
    assert ring == ring[..i] + ring[i..j] + [ring[j]] + ring[j + 1..];
    forall k | 0 <= k < |f| ensures f[k].hash == ring[k].hash {
      if i <= k <= j {
        assert ring[i].hash <= ring[k].hash <= ring[j].hash;
        if k > i {
          assert f[k] == ring[k - 1] && ring[i].hash <= ring[k - 1].hash <= ring[j].hash;
        }
      }
    }
  }

  /** With a point brought to the front of its hash, a key of that hash prefers the point's node. */
  lemma ForwardIsFirst(ring: seq<Point>, i: nat, j: nat, k: nat)
    requires SortedByHash(ring) && i <= j < |ring| && ring[i].hash == ring[j].hash == k
    requires i == 0 || ring[i - 1].hash < k
    ensures var order := Prefer(Clockwise(Forward(ring, i, j), k)); order != [] && order[0] == ring[j].node
  {
    var f := Forward(ring, i, j);
    ForwardKeeps(ring, i, j);
    FirstSplits(f, k);
    assert f[i] == ring[j] && (i > 0 ==> f[i - 1] == ring[i - 1]);
    assert First(f, k) == i;
    assert Clockwise(f, k)[0] == f[i];
    PreferNonEmpty(Clockwise(f, k));
  }

  lemma RearrangedRing(h: Hash, replicas: nat, nodes: set<string>, ring: seq<Point>, other: seq<Point>)
    requires RingOf(h, replicas, nodes, ring) && SortedByHash(other) && multiset(other) == multiset(ring)
    ensures RingOf(h, replicas, nodes, other)
  {
  }

  /** Every point's hash is the hash of some key: the text it was computed from. */
  lemma PointHasKey(h: Hash, replicas: nat, nodes: set<string>, ring: seq<Point>, p: Point) returns (key: string)
    requires RingOf(h, replicas, nodes, ring) && p in ring
    ensures h(key) == p.hash
  {
    assert p in multiset(ring);
    assert p in multiset(Points(h, p.node, replicas));
    assert p in Points(h, p.node, replicas);
    var r :| 0 <= r < replicas && Points(h, p.node, replicas)[r] == p;
    key := p.node + ":" + Digits(r);
  }

  /** Any point can come first among those of its hash. */
  lemma OwnedByPoint(h: Hash, replicas: nat, nodes: set<string>, ring: seq<Point>, p: Point, key: string) returns (a: seq<Point>)
    requires RingOf(h, replicas, nodes, ring) && p in ring && h(key) == p.hash
    ensures RingOf(h, replicas, nodes, a) && Preference(h, a, key) != [] && Preference(h, a, key)[0] == p.node
  {
    hide RingOf, SortedByHash, Forward, Clockwise, Prefer, First;
    RingSorted(h, replicas, nodes, ring);
    var i := First(ring, p.hash);
    var j := PlaceInGroup(ring, p);
    a := Forward(ring, i, j);
    ForwardKeeps(ring, i, j);
    RearrangedRing(h, replicas, nodes, ring, a);
    ForwardIsFirst(ring, i, j, p.hash);
  }

  /** Where points of two nodes collide, two rings over the same nodes give some key different owners. */
  lemma CollisionDisagrees(h: Hash, replicas: nat, nodes: set<string>, ring: seq<Point>, p: Point, q: Point)
      returns (a: seq<Point>, b: seq<Point>, key: string)
    requires RingOf(h, replicas, nodes, ring) && p in ring && q in ring && p.hash == q.hash && p.node != q.node
    ensures RingOf(h, replicas, nodes, a) && RingOf(h, replicas, nodes, b)
    ensures Preference(h, a, key) != [] && Preference(h, b, key) != [] && Preference(h, a, key)[0] != Preference(h, b, key)[0]
  {
    hide RingOf, Preference;
    key := PointHasKey(h, replicas, nodes, ring, p);
    a := OwnedByPoint(h, replicas, nodes, ring, p, key);
    b := OwnedByPoint(h, replicas, nodes, ring, q, key);
  }

  lemma RingSorted(h: Hash, replicas: nat, nodes: set<string>, ring: seq<Point>)
    requires RingOf(h, replicas, nodes, ring)
    ensures SortedByHash(ring)
  {
  }

  /** A point lies among those of its hash, which begin where the search for it ends. */
  lemma PlaceInGroup(ring: seq<Point>, p: Point) returns (j: nat)
    requires SortedByHash(ring) && p in ring
    ensures First(ring, p.hash) <= j < |ring| && ring[j] == p && ring[First(ring, p.hash)].hash == p.hash
    ensures First(ring, p.hash) == 0 || ring[First(ring, p.hash) - 1].hash < p.hash
  {
    FirstSplits(ring, p.hash);
    j :| 0 <= j < |ring| && ring[j] == p;
  }

  /** All rings over these nodes give every key the same preference order. */
  ghost predicate HistoryIsForgotten(h: Hash, replicas: nat, nodes: set<string>) {
    forall a, b, key | RingOf(h, replicas, nodes, a) && RingOf(h, replicas, nodes, b) ::
      Preference(h, a, key) == Preference(h, b, key)
  }

  /** That is so if and only if no points of different nodes collide. */
  lemma HistoryIsForgottenExactly(h: Hash, replicas: nat, nodes: set<string>, ring: seq<Point>)
    requires RingOf(h, replicas, nodes, ring)
    ensures HistoryIsForgotten(h, replicas, nodes) <==> NoCollision(ring)
  {
    if NoCollision(ring) {
      forall a, b, key | RingOf(h, replicas, nodes, a) && RingOf(h, replicas, nodes, b)
        ensures Preference(h, a, key) == Preference(h, b, key)
      {
        HistoryDoesNotMatter(h, replicas, nodes, ring, a, key);
        HistoryDoesNotMatter(h, replicas, nodes, ring, b, key);
      }
    } else {
      var p, q :| p in ring && q in ring && p.hash == q.hash && p.node != q.node;
      var a, b, key := CollisionDisagrees(h, replicas, nodes, ring, p, q);
    }
  }

  /** Every addition of `node` to a ring over `nodes` only inserts it into the preference orders. */
  ghost predicate AddingOnlyInserts(h: Hash, replicas: nat, nodes: set<string>, node: string) {
    forall before, after, key | RingOf(h, replicas, nodes, before) && RingOf(h, replicas, nodes + {node}, after) ::
      Without(Preference(h, after, key), node) == Preference(h, before, key)
  }

  /** So too with additions: what matters is that the nodes already there do not collide with each other. */
  lemma AddingOnlyInsertsExactly(h: Hash, replicas: nat, nodes: set<string>, ring: seq<Point>, node: string, grown: seq<Point>)
    requires RingOf(h, replicas, nodes, ring) && node !in nodes && RingOf(h, replicas, nodes + {node}, grown)
    ensures AddingOnlyInserts(h, replicas, nodes, node) <==> NoCollision(ring)
  {
    if NoCollision(ring) {
      forall before, after, key | RingOf(h, replicas, nodes, before) && RingOf(h, replicas, nodes + {node}, after)
        ensures Without(Preference(h, after, key), node) == Preference(h, before, key)
      {
        RingUnique(h, replicas, nodes, ring, before);
        AddOnlyInserts(h, replicas, nodes, before, node, after, key);
      }
    } else {
      var p, q :| p in ring && q in ring && p.hash == q.hash && p.node != q.node;
      var a, b, key := CollisionDisagrees(h, replicas, nodes, ring, p, q);
      var order := Without(Preference(h, grown, key), node);
      assert order != Preference(h, a, key) || order != Preference(h, b, key);
    }
  }

  lemma {:induction false} PreferNonEmpty(walk: seq<Point>)
    requires walk != []
    ensures Prefer(walk) != [] && Prefer(walk)[0] == walk[0].node
  {
    if |walk| > 1 {
      PreferNonEmpty(walk[..|walk| - 1]);
    } else {
      assert walk[..0] == [];
    }
  }

  /** Every node of the ring, once. */
  lemma PreferenceIsPermutation(h: Hash, replicas: nat, nodes: set<string>, ring: seq<Point>, key: string)
    requires RingOf(h, replicas, nodes, ring) && replicas > 0
    ensures var order := Preference(h, ring, key);
            && (forall n :: n in order <==> n in nodes)
            && (forall i, j | 0 <= i < j < |order| :: order[i] != order[j])
            && |order| == |nodes|
  {
    var order, walk := Preference(h, ring, key), Clockwise(ring, h(key));
    var i := First(ring, h(key));
    PreferMembers(walk);
    assert ring == ring[..i] + ring[i..];
    assert forall p :: p in walk <==> p in ring;
    forall n ensures n in order <==> n in nodes {
      if n in nodes {
        var p := Points(h, n, replicas)[0];
        assert p in multiset(Points(h, n, replicas));
        assert p in multiset(ring) && p in walk && p.node == n;
      }
      if n in order {
        var p :| p in walk && p.node == n;
        assert p in multiset(ring);
      }
    }
    DistinctSize(order, nodes);
  }

  lemma {:induction false} DistinctSize(s: seq<string>, members: set<string>)
    requires forall i, j | 0 <= i < j < |s| :: s[i] != s[j]
    requires forall n :: n in s <==> n in members
    ensures |s| == |members|
  {
    if s == [] {
      assert members == {};
    } else {
      assert s == [s[0]] + s[1..];
      DistinctSize(s[1..], members - {s[0]});
    }
  }

  lemma {:induction false} PreferOfPrefix(walk: seq<Point>, i: nat)
    requires i <= |walk|
    ensures Prefer(walk[..i]) <= Prefer(walk)
    decreases |walk|
  {
    if i < |walk| {
      PreferOfPrefix(walk[..|walk| - 1], i);
      assert walk[..|walk| - 1][..i] == walk[..i];
    } else {
      assert walk[..i] == walk;
    }
  }

  function Power(i: nat): nat {
    if i == 0 then 1 else 10 * Power(i - 1)
  }

  /** Fills a ten-byte buffer from the back, so it panics (None) on numbers from 10^10 on. */
  method Itoa(n: nat) returns (s: Option<string>)
    ensures s == if n < Power(10) then Some(Digits(n)) else None
  {
    if n == 0 {
      return Some("0");
    }
    s := FillBuffer(n);
    if s.Some? {
      LeadingEnds(s.value);
    }
  }

  method FillBuffer(n: nat) returns (s: Option<string>)
    ensures s == if n < Power(10) then Some(Leading(n)) else None
  {
    hide *;
    var buf := new char[10];
    var i, m: nat := 10, n;
    assert buf[i..] == [];
    LeadingEnds(Leading(n));
    while m > 0
      invariant 0 <= i <= 10 && (m < Power(i) <==> n < Power(10))
      invariant Leading(m) + buf[i..] == Leading(n)
    {
      PowerStep(i, m);
      if i == 0 {
        return None;
      }
      LeadingStep(m, buf[i..]);
      i := Put(buf, i, Digit(m % 10));
      m := m / 10;
    }
    PowerPositive(i);
    LeadingEnds(buf[i..]);
    s := Some(buf[i..]);
  }

  /** i--, then write at i. */
  method Put(buf: array<char>, i: nat, c: char) returns (j: nat)
    requires 0 < i <= buf.Length
    modifies buf
    ensures j == i - 1 && buf[j..] == [c] + old(buf[i..])
  {
    j := i - 1;
    buf[j] := c;
  }

  lemma PowerStep(i: nat, m: nat)
    requires m > 0
    ensures i == 0 ==> m >= Power(i)
    ensures i > 0 ==> (m / 10 < Power(i - 1) <==> m < Power(i))
  {
  }

  lemma {:induction false} PowerPositive(i: nat)
    ensures Power(i) > 0
  {
    if i > 0 {
      PowerPositive(i - 1);
    }
  }

  function Leading(m: nat): string {
    if m > 0 then Digits(m) else []
  }

  lemma LeadingStep(m: nat, tail: string)
    requires m > 0
    ensures Leading(m) + tail == Leading(m / 10) + ([Digit(m % 10)] + tail)
  {
    assert Leading(m) == Leading(m / 10) + [Digit(m % 10)];
  }

  lemma LeadingEnds(s: string)
    ensures Leading(0) + s == s && s + [] == s
  {
  }

  /** sort.Slice by hash. It is not stable, so callers may rely only on order and contents. */
  method SortPoints(points: seq<Point>) returns (s: seq<Point>)
    ensures SortedByHash(s) && multiset(s) == multiset(points)
  {
    s := [];
    for n := 0 to |points|
      invariant SortedByHash(s) && multiset(s) == multiset(points[..n])
    {
      assert points[..n + 1] == points[..n] + [points[n]];
      s := InsertPoint(s, points[n]);
    }
    assert points[..|points|] == points;
  }

  method InsertPoint(s: seq<Point>, x: Point) returns (r: seq<Point>)
    requires SortedByHash(s)
    ensures SortedByHash(r) && multiset(r) == multiset(s) + multiset{x}
  {
    var i := |s|;
    while i > 0 && s[i - 1].hash > x.hash
      invariant 0 <= i <= |s|
      invariant forall j | i <= j < |s| :: x.hash < s[j].hash
    {
      i := i - 1;
    }
    InsertKeepsOrder(s, i, x);
    assert s == s[..i] + s[i..];
    r := s[..i] + [x] + s[i..];
  }

  lemma InsertKeepsOrder(s: seq<Point>, i: nat, x: Point)
    requires SortedByHash(s) && i <= |s|
    requires i > 0 ==> s[i - 1].hash <= x.hash
    requires forall j | i <= j < |s| :: x.hash < s[j].hash
    ensures SortedByHash(s[..i] + [x] + s[i..])
  {
    var r := s[..i] + [x] + s[i..];
    forall j, k | 0 <= j < k < |r| ensures r[j].hash <= r[k].hash {
      if j < i && i > 0 {
        assert s[j].hash <= s[i - 1].hash;
      }
    }
  }

  /** Add's loop: the virtual nodes go at the end of the slice. */
  method AppendPoints(h: Hash, ring: seq<Point>, node: string, replicas: nat) returns (points: Option<seq<Point>>)
    ensures points == if replicas <= Power(10) then Some(ring + Points(h, node, replicas)) else None
  {
    hide Power, Digits;
    var all := ring;
    for i := 0 to replicas
      invariant i <= Power(10) && all == ring + Points(h, node, i)
    {
      var digits := Itoa(i);
      if digits.None? {
        return None;
      }
      all := all + [Point(h(node + ":" + digits.value), node)];
      assert Points(h, node, i + 1) == Points(h, node, i) + [Point(HashKey(h, node, i), node)];
    }
    points := Some(all);
  }

  /** Remove's loop. */
  method KeepOthers(ring: seq<Point>, node: string) returns (newRing: seq<Point>)
    ensures newRing == WithoutNode(ring, node)
  {
    newRing := [];
    for i := 0 to |ring|
      invariant newRing == WithoutNode(ring[..i], node)
    {
      assert ring[..i + 1][..i] == ring[..i];
      if ring[i].node != node {
        newRing := newRing + [ring[i]];
      }
    }
    assert ring[..|ring|] == ring;
  }

  /** GetN's loop: nodes not seen before, in clockwise order from idx, until there are enough. */
  method Walk(ring: seq<Point>, idx: nat, limit: int) returns (result: seq<string>)
    requires 0 < |ring| && idx <= |ring|
    ensures var order := Prefer(ring[idx..] + ring[..idx]);
            result == if limit <= 0 then [] else if limit <= |order| then order[..limit] else order
  {
    ghost var walk := ring[idx..] + ring[..idx];
    var seen: set<string> := {};
    result := [];
    var i := 0;
    while i < |ring| && |result| < limit
      invariant 0 <= i <= |ring| == |walk|
      invariant result == Prefer(walk[..i])
      invariant forall x :: x in seen <==> x in result
      invariant |result| <= if limit <= 0 then 0 else limit
    {
      var pos := (idx + i) % |ring|;
      var node := ring[pos].node;
      Around(ring, idx, i);
      PreferStep(walk, i);
      if node !in seen {
        seen := seen + {node};
        result := result + [node];
      }
      i := i + 1;
    }
    PreferOfPrefix(walk, i);
    if i == |ring| {
      assert walk[..i] == walk;
    }
  }

  lemma OnceAround(x: nat, n: nat)
    ensures x < 2 * n ==> x % n == if x < n then x else x - n
  {
  }

  lemma Around(ring: seq<Point>, idx: nat, i: nat)
    requires idx <= |ring| && i < |ring|
    ensures (ring[idx..] + ring[..idx])[i] == ring[(idx + i) % |ring|]
  {
    OnceAround(idx + i, |ring|);
  }

  lemma RingGrows(h: Hash, replicas: nat, nodes: set<string>, ring: seq<Point>, node: string, after: seq<Point>)
    requires RingOf(h, replicas, nodes, ring) && node !in nodes
    requires SortedByHash(after) && multiset(after) == multiset(ring) + multiset(Points(h, node, replicas))
    ensures RingOf(h, replicas, nodes + {node}, after)
  {
    forall p: Point
      ensures multiset(after)[p] == if p.node in nodes + {node} then multiset(Points(h, p.node, replicas))[p] else 0
    {
      OwnPoints(h, node, replicas, p);
    }
  }

  class Ring {
    const hash: Hash
    const replicas: nat
    var nodes: set<string>
    var ring: seq<Point>

    /** With more replicas than itoa has digits for, Add panics. */
    ghost predicate Valid()
      reads this
    {
      0 < replicas <= Power(10) && RingOf(hash, replicas, nodes, ring)
    }

    constructor (hash: Hash, replicas: int)
      ensures nodes == {} && ring == [] && (this.replicas <= Power(10) ==> Valid())
      ensures this.hash == hash && this.replicas == if replicas <= 0 then 100 else replicas
    {
      this.hash := hash;
      this.replicas := if replicas <= 0 then 100 else replicas;
      nodes, ring := {}, [];
    }

    method Add(node: string)
      requires Valid()
      modifies this
      ensures Valid() && nodes == old(nodes) + {node}
      ensures node in old(nodes) ==> ring == old(ring)
    {
      if node in nodes {
        return;
      }
      nodes := nodes + {node};
      var all := AppendPoints(hash, ring, node, replicas);
      var points := SortPoints(all.value);
      RingGrows(hash, replicas, old(nodes), ring, node, points);
      ring := points;
    }

    method Remove(node: string)
      requires Valid()
      modifies this
      ensures Valid() && nodes == old(nodes) - {node}
      ensures ring == WithoutNode(old(ring), node)
    {
      hide RingOf, WithoutNode;
      if node !in nodes {
        NothingToRemove(hash, replicas, nodes, ring, node);
        return;
      }
      EnoughPoints(hash, replicas, nodes, ring, node);
      assert |ring| - replicas >= 0;  // the capacity given to make
      nodes := nodes - {node};
      var newRing := KeepOthers(ring, node);
      RingShrinks(hash, replicas, old(nodes), ring, node);
      ring := newRing;
    }

    /** sort.Search. */
    method Search(k: nat) returns (i: nat)
      requires SortedByHash(ring)
      ensures i == First(ring, k)
    {
      var lo, hi := 0, |ring|;
      while lo < hi
        invariant 0 <= lo <= hi <= |ring|
        invariant forall j | 0 <= j < lo :: ring[j].hash < k
        invariant forall j | hi <= j < |ring| :: ring[j].hash >= k
      {
        var mid := (lo + hi) / 2;
        if ring[mid].hash < k {
          lo := mid + 1;
        } else {
          hi := mid;
        }
      }
      assert ring == ring[..lo] + ring[lo..];
      FirstIsUnique(ring[..lo], ring[lo..], k);
      i := lo;
    }

    /** The first preference of the key, or the empty string on an empty ring. */
    method Get(key: string) returns (node: string)
      requires Valid()
      ensures nodes == {} ==> node == ""
      ensures nodes != {} ==> node in nodes && [node] <= Preference(hash, ring, key)
    {
      PreferenceIsPermutation(hash, replicas, nodes, ring, key);
      if |ring| == 0 {
        EmptyRing(hash, replicas, nodes, ring);
        return "";
      }
      var idx := Search(hash(key));
      if idx >= |ring| {
        idx := 0;
      }
      PreferNonEmpty(Clockwise(ring, hash(key)));
      node := ring[idx].node;
      assert Preference(hash, ring, key)[0] == node;
    }

    /** The first n preferences of the key: min(n, number of nodes) distinct nodes, none for n <= 0. */
    method GetN(key: string, n: int) returns (result: seq<string>)
      requires Valid()
      ensures |result| == if n <= 0 then 0 else if n > |nodes| then |nodes| else n
      ensures result <= Preference(hash, ring, key)
    {
      PreferenceIsPermutation(hash, replicas, nodes, ring, key);
      if |ring| == 0 {
        EmptyRing(hash, replicas, nodes, ring);
        return [];
      }
      var limit := if n > |nodes| then |nodes| else n;
      var idx := Search(hash(key));
      result := Walk(ring, idx, limit);
    }
  }

  lemma PreferStep(walk: seq<Point>, i: nat)
    requires i < |walk|
    ensures var before := Prefer(walk[..i]);
            Prefer(walk[..i + 1]) == if walk[i].node in before then before else before + [walk[i].node]
  {
    assert walk[..i + 1][..i] == walk[..i];
  }

  lemma OwnPoints(h: Hash, node: string, replicas: nat, p: Point)
    ensures p.node != node ==> multiset(Points(h, node, replicas))[p] == 0
  {
    if p in multiset(Points(h, node, replicas)) {
      assert p in Points(h, node, replicas);
    }
  }

  lemma EnoughPoints(h: Hash, replicas: nat, nodes: set<string>, ring: seq<Point>, node: string)
    requires RingOf(h, replicas, nodes, ring) && node in nodes
    ensures |ring| >= replicas
  {
    var own := multiset(Points(h, node, replicas));
    forall p ensures own[p] <= multiset(ring)[p] {
      OwnPoints(h, node, replicas, p);
    }
    assert multiset(ring) == own + (multiset(ring) - own);
    assert |multiset(ring)| == |ring| && |own| == replicas;
  }

  lemma NothingToRemove(h: Hash, replicas: nat, nodes: set<string>, ring: seq<Point>, node: string)
    requires RingOf(h, replicas, nodes, ring) && node !in nodes
    ensures WithoutNode(ring, node) == ring
  {
    forall p | p in ring ensures p.node != node {
      assert p in multiset(ring);
    }
    KeepsAll(ring, node);
  }

  lemma {:induction false} KeepsAll(ring: seq<Point>, node: string)
    requires forall p | p in ring :: p.node != node
    ensures WithoutNode(ring, node) == ring
  {
    if ring != [] {
      KeepsAll(ring[..|ring| - 1], node);
      assert ring[|ring| - 1] in ring;
      assert ring == ring[..|ring| - 1] + [ring[|ring| - 1]];
    }
  }

  lemma EmptyRing(h: Hash, replicas: nat, nodes: set<string>, ring: seq<Point>)
    requires RingOf(h, replicas, nodes, ring) && ring == [] && replicas > 0
    ensures nodes == {}
  {
    PreferenceIsPermutation(h, replicas, nodes, ring, "");
    assert Clockwise(ring, h("")) == [];
    assert Preference(h, ring, "") == [];
  }
}
