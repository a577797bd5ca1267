/** packages/golib/lru/lru.go as operations on a plain recency list, most recently used first. */
module Lru {
  import opened Wrappers

  datatype Entry<K, V> = Entry(key: K, value: V)

  function Without<K(==), V>(l: seq<Entry<K, V>>, k: K): seq<Entry<K, V>> {
    if l == [] then [] else if l[0].key == k then Without(l[1..], k) else [l[0]] + Without(l[1..], k)
  }

  function Lookup<K(==), V>(l: seq<Entry<K, V>>, k: K): Option<V> {
    if l == [] then None else if l[0].key == k then Some(l[0].value) else Lookup(l[1..], k)
  }

  predicate Has<K(==), V>(l: seq<Entry<K, V>>, k: K) {
    Lookup(l, k).Some?
  }

  predicate Distinct<K(==), V>(l: seq<Entry<K, V>>) {
    l == [] || (!Has(l[1..], l[0].key) && Distinct(l[1..]))
  }

  function DropLast<K, V>(l: seq<Entry<K, V>>): seq<Entry<K, V>>
    requires l != []
  {
    l[..|l| - 1]
  }

  datatype Op<K, V> = Get(key: K) | Set(key: K, value: V) | Delete(key: K) | Clear

  /** Set of a new key drops the last entry first when the cache is full. */
  function Apply<K(==), V>(capacity: nat, l: seq<Entry<K, V>>, op: Op<K, V>): seq<Entry<K, V>> {
    match op
    case Get(k) =>
      (match Lookup(l, k)
       case Some(v) => [Entry(k, v)] + Without(l, k)
       case None => l)
    case Set(k, v) =>
      if Lookup(l, k).Some? then [Entry(k, v)] + Without(l, k)
      else [Entry(k, v)] + (if |l| >= capacity && l != [] then DropLast(l) else l)
    case Delete(k) => Without(l, k)
    case Clear => []
  }

  function Run<K(==), V>(capacity: nat, l: seq<Entry<K, V>>, ops: seq<Op<K, V>>): seq<Entry<K, V>> {
    if ops == [] then l else Apply(capacity, Run(capacity, l, ops[..|ops| - 1]), ops[|ops| - 1])
  }

  // A list taken apart at its head.

  lemma Uncons<K, V>(l: seq<Entry<K, V>>)
    requires l != []
    ensures l == [l[0]] + l[1..]
  {
  }

  lemma LookupCons<K, V>(e: Entry<K, V>, rest: seq<Entry<K, V>>, x: K)
    ensures Lookup([e] + rest, x) == if e.key == x then Some(e.value) else Lookup(rest, x)
  {
    assert ([e] + rest)[1..] == rest;
  }

  lemma WithoutCons<K, V>(e: Entry<K, V>, rest: seq<Entry<K, V>>, k: K)
    ensures Without([e] + rest, k) == if e.key == k then Without(rest, k) else [e] + Without(rest, k)
  {
    assert ([e] + rest)[1..] == rest;
  }

  lemma RestrictCons<K, V>(e: Entry<K, V>, rest: seq<Entry<K, V>>, a: seq<Entry<K, V>>)
    ensures Restrict([e] + rest, a) == if Has(a, e.key) then [e] + Restrict(rest, a) else Restrict(rest, a)
  {
    assert ([e] + rest)[1..] == rest;
  }

  // Removal.

  lemma {:induction false} WithoutLookup<K, V>(l: seq<Entry<K, V>>, k: K, x: K)
    ensures Lookup(Without(l, k), x) == if x == k then None else Lookup(l, x)
  {
    if l != [] {
      WithoutLookup(l[1..], k, x);
    }
  }

  lemma {:induction false} WithoutDistinct<K, V>(l: seq<Entry<K, V>>, k: K)
    requires Distinct(l)
    ensures Distinct(Without(l, k)) && |Without(l, k)| == |l| - (if Has(l, k) then 1 else 0)
    ensures !Has(l, k) ==> Without(l, k) == l
  {
    if l != [] {
      WithoutDistinct(l[1..], k);
      WithoutLookup(l[1..], k, l[0].key);
    }
  }

  /** Dropping the last entry is removing its key. */
  lemma {:induction false} DropLastRemoves<K, V>(l: seq<Entry<K, V>>)
    requires Distinct(l) && l != []
    ensures DropLast(l) == Without(l, l[|l| - 1].key) && Has(l, l[|l| - 1].key)
  {
    if |l| > 1 {
      DropLastRemoves(l[1..]);
      assert DropLast(l) == [l[0]] + DropLast(l[1..]);
    } else {
      assert DropLast(l) == [] && Without(l[1..], l[0].key) == [];
    }
  }

  /** Every operation keeps the list free of duplicates and within capacity. */
  lemma ApplyKeeps<K, V>(capacity: nat, l: seq<Entry<K, V>>, op: Op<K, V>)
    requires capacity > 0 && Distinct(l) && |l| <= capacity
    ensures Distinct(Apply(capacity, l, op)) && |Apply(capacity, l, op)| <= capacity
  {
    if !op.Clear? {
      WithoutDistinct(l, op.key);
      WithoutLookup(l, op.key, op.key);
      if op.Set? && !Has(l, op.key) && |l| == capacity {
        var last := l[|l| - 1].key;
        DropLastRemoves(l);
        WithoutDistinct(l, last);
        WithoutLookup(l, last, op.key);
      }
    }
  }

  lemma {:induction false} RunKeeps<K, V>(capacity: nat, ops: seq<Op<K, V>>)
    requires capacity > 0
    ensures Distinct(Run(capacity, [], ops)) && |Run(capacity, [], ops)| <= capacity
  {
    if ops != [] {
      RunKeeps(capacity, ops[..|ops| - 1]);
      ApplyKeeps(capacity, Run(capacity, [], ops[..|ops| - 1]), ops[|ops| - 1]);
    }
  }

  /** After Set the value comes back under its key, which is now the most recent; every other key keeps
      its value, except that a full cache given a new key loses exactly the last one. */
  lemma SetThenLookup<K, V>(capacity: nat, l: seq<Entry<K, V>>, k: K, v: V, other: K)
    requires capacity > 0 && Distinct(l) && |l| <= capacity && other != k
    ensures var r := Apply(capacity, l, Set(k, v));
            && Lookup(r, k) == Some(v) && r[0].key == k
            && Lookup(r, other) == if |l| == capacity && !Has(l, k) && l[|l| - 1].key == other then None else Lookup(l, other)
  {
    WithoutLookup(l, k, other);
    if |l| == capacity {
      DropLastRemoves(l);
      WithoutLookup(l, l[|l| - 1].key, other);
    }
  }

  // Two capacities.

  /** The entries of b whose keys are also in a. */
  function Restrict<K(==), V>(b: seq<Entry<K, V>>, a: seq<Entry<K, V>>): seq<Entry<K, V>> {
    if b == [] then [] else (if Has(a, b[0].key) then [b[0]] else []) + Restrict(b[1..], a)
  }

  lemma {:induction false} RestrictLookup<K, V>(b: seq<Entry<K, V>>, a: seq<Entry<K, V>>, k: K)
    ensures Lookup(Restrict(b, a), k) == if Has(a, k) then Lookup(b, k) else None
  {
    if b != [] {
      hide Lookup, Restrict;
      Uncons(b);
      RestrictLookup(b[1..], a, k);
      RestrictCons(b[0], b[1..], a);
      LookupCons(b[0], b[1..], k);
      LookupCons(b[0], Restrict(b[1..], a), k);
    }
  }

  lemma {:induction false} RestrictLess<K, V>(b: seq<Entry<K, V>>, a: seq<Entry<K, V>>, k: K)
    ensures Restrict(b, Without(a, k)) == Without(Restrict(b, a), k)
  {
    if b != [] {
      hide Lookup, Restrict, Without;
      Uncons(b);
      RestrictLess(b[1..], a, k);
      WithoutLookup(a, k, b[0].key);
      RestrictCons(b[0], b[1..], a);
      RestrictCons(b[0], b[1..], Without(a, k));
      WithoutCons(b[0], Restrict(b[1..], a), k);
    }
  }

  lemma {:induction false} RestrictOfLess<K, V>(b: seq<Entry<K, V>>, a: seq<Entry<K, V>>, k: K)
    ensures Restrict(Without(b, k), a) == Without(Restrict(b, a), k)
  {
    if b != [] {
      hide Lookup, Restrict, Without;
      Uncons(b);
      RestrictOfLess(b[1..], a, k);
      WithoutCons(b[0], b[1..], k);
      RestrictCons(b[0], b[1..], a);
      RestrictCons(b[0], Without(b[1..], k), a);
      WithoutCons(b[0], Restrict(b[1..], a), k);
    }
  }

  lemma {:induction false} RestrictMore<K, V>(b: seq<Entry<K, V>>, e: Entry<K, V>, a: seq<Entry<K, V>>)
    requires !Has(b, e.key)
    ensures Restrict(b, [e] + a) == Restrict(b, a)
  {
    if b != [] {
      assert ([e] + a)[1..] == a;
      RestrictMore(b[1..], e, a);
    }
  }

  lemma {:induction false} RestrictKeepsLast<K, V>(b: seq<Entry<K, V>>, a: seq<Entry<K, V>>)
    requires b != [] && Has(a, b[|b| - 1].key)
    ensures Restrict(b, a) != [] && Restrict(b, a)[|Restrict(b, a)| - 1] == b[|b| - 1]
  {
    if |b| > 1 {
      RestrictKeepsLast(b[1..], a);
    }
  }

  /** Both lists after putting the same new head on them. */
  lemma HeadOnBoth<K, V>(b: seq<Entry<K, V>>, a: seq<Entry<K, V>>, e: Entry<K, V>)
    requires a == Restrict(b, a) && !Has(b, e.key)
    ensures [e] + a == Restrict([e] + b, [e] + a)
  {
    assert ([e] + b)[1..] == b;
    RestrictMore(b, e, a);
  }

  /** How the lists of a small and a large cache stay related: the small one is the large one cut down
      to its own keys, in the same order, and has no more room left. */
  ghost predicate Inside<K, V>(small: nat, a: seq<Entry<K, V>>, large: nat, b: seq<Entry<K, V>>) {
    && Distinct(a) && Distinct(b) && |a| <= small && |b| <= large
    && small - |a| <= large - |b|
    && a == Restrict(b, a)
  }

  /** What a full cache does before taking a new key. */
  function MakeRoom<K(==), V>(capacity: nat, l: seq<Entry<K, V>>): seq<Entry<K, V>> {
    if |l| >= capacity && l != [] then DropLast(l) else l
  }

  lemma MakeRoomInside<K, V>(small: nat, a: seq<Entry<K, V>>, large: nat, b: seq<Entry<K, V>>)
    requires Inside(small, a, large, b) && 0 < small <= large
    ensures MakeRoom(small, a) == Restrict(MakeRoom(large, b), MakeRoom(small, a))
  {
    if |a| == small {
      var lastA := a[|a| - 1].key;
      DropLastRemoves(a);
      RestrictLess(b, a, lastA);
      if |b| == large {
        var lastB := b[|b| - 1].key;
        DropLastRemoves(b);
        RestrictOfLess(b, Without(a, lastA), lastB);
        if Has(a, lastB) {
          RestrictKeepsLast(b, a);
        } else {
          WithoutLookup(a, lastA, lastB);
          WithoutDistinct(a, lastA);
          WithoutDistinct(Without(a, lastA), lastB);
        }
        WithoutTwice(a, lastA);
      }
    }
  }

  lemma {:induction false} WithoutTwice<K, V>(l: seq<Entry<K, V>>, k: K)
    ensures Without(Without(l, k), k) == Without(l, k)
  {
    if l != [] {
      WithoutTwice(l[1..], k);
      if l[0].key != k {
        assert ([l[0]] + Without(l[1..], k))[1..] == Without(l[1..], k);
      }
    }
  }

  lemma ApplyKeepsInside<K, V>(small: nat, a: seq<Entry<K, V>>, large: nat, b: seq<Entry<K, V>>, op: Op<K, V>)
    requires Inside(small, a, large, b) && 0 < small <= large
    ensures Inside(small, Apply(small, a, op), large, Apply(large, b, op))
  {
    ApplyKeeps(small, a, op);
    ApplyKeeps(large, b, op);
    if !op.Clear? {
      var k := op.key;
      RestrictLookup(b, a, k);
      RestrictLess(b, a, k);
      RestrictOfLess(b, Without(a, k), k);
      WithoutTwice(a, k);
      WithoutDistinct(a, k);
      WithoutDistinct(b, k);
      WithoutLookup(b, k, k);
      if op.Set? && !Has(a, k) {
        MissingInSmall(small, a, large, b, k, op.value);
      } else if Has(a, k) && !op.Delete? {
        var e := if op.Get? then Entry(k, Lookup(a, k).value) else Entry(k, op.value);
        HeadOnBoth(Without(b, k), Without(a, k), e);
      }
    }
  }

  /** Set of a key the small cache does not have. */
  lemma MissingInSmall<K, V>(small: nat, a: seq<Entry<K, V>>, large: nat, b: seq<Entry<K, V>>, k: K, v: V)
    requires Inside(small, a, large, b) && 0 < small <= large && !Has(a, k)
    ensures Apply(small, a, Set(k, v)) == Restrict(Apply(large, b, Set(k, v)), Apply(small, a, Set(k, v)))
  {
    var e, a' := Entry(k, v), MakeRoom(small, a);
    if Has(b, k) {
      if |a| == small {
        DropLastRemoves(a);
        RestrictLess(b, a, a[|a| - 1].key);
        WithoutLookup(a, a[|a| - 1].key, k);
        WithoutDistinct(a, a[|a| - 1].key);
      }
      RestrictOfLess(b, a', k);
      WithoutDistinct(a', k);
      WithoutLookup(b, k, k);
      HeadOnBoth(Without(b, k), a', e);
    } else {
      MakeRoomInside(small, a, large, b);
      if |b| == large {
        DropLastRemoves(b);
        WithoutLookup(b, b[|b| - 1].key, k);
      }
      HeadOnBoth(MakeRoom(large, b), a', e);
    }
  }

  lemma {:induction false} RunKeepsInside<K, V>(small: nat, large: nat, ops: seq<Op<K, V>>)
    requires 0 < small <= large
    ensures Inside(small, Run(small, [], ops), large, Run(large, [], ops))
  {
    if ops != [] {
      var before := ops[..|ops| - 1];
      RunKeepsInside(small, large, before);
      ApplyKeepsInside(small, Run(small, [], before), large, Run(large, [], before), ops[|ops| - 1]);
    }
  }

  /** After the same operations a larger cache holds every entry of a smaller one. */
  lemma LargerCacheIncludes<K, V>(small: nat, large: nat, ops: seq<Op<K, V>>, k: K)
    requires 0 < small <= large && Has(Run(small, [], ops), k)
    ensures Lookup(Run(large, [], ops), k) == Lookup(Run(small, [], ops), k)
  {
    RunKeepsInside(small, large, ops);
    RestrictLookup(Run(large, [], ops), Run(small, [], ops), k);
  }
}
