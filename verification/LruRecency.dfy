/** What makes packages/golib/lru/lru.go least recently used: the order of its list against the history of
    calls, for the runs of module Lru. */
module LruRecency {
  import opened Lru
  import opened Wrappers

  /** Call number i uses k: it sets it, or gets it while it is cached. */
  predicate Uses<K(==), V>(capacity: nat, ops: seq<Op<K, V>>, i: nat, k: K)
    requires i < |ops|
  {
    match ops[i]
    case Set(x, _) => x == k
    case Get(x) => x == k && Has(Run(capacity, [], ops[..i]), k)
    case _ => false
  }

  /** The number of the latest call that uses k, or -1. */
  function LastUse<K(==), V>(capacity: nat, ops: seq<Op<K, V>>, k: K): (n: int)
    ensures -1 <= n < |ops|
  {
    if ops == [] then -1
    else if Uses(capacity, ops, |ops| - 1, k) then |ops| - 1
    else LastUse(capacity, ops[..|ops| - 1], k)
  }

  lemma {:induction false} LastUseIs<K, V>(capacity: nat, ops: seq<Op<K, V>>, k: K)
    ensures var n := LastUse(capacity, ops, k);
            && (n >= 0 ==> Uses(capacity, ops, n, k))
            && forall i | n < i < |ops| :: !Uses(capacity, ops, i, k)
  {
    if ops != [] && !Uses(capacity, ops, |ops| - 1, k) {
      var front := ops[..|ops| - 1];
      LastUseIs(capacity, front, k);
      forall i | 0 <= i < |front| ensures Uses(capacity, ops, i, k) <==> Uses(capacity, front, i, k) {
        assert ops[..i] == front[..i];
      }
    }
  }

  /** The list stands in order of last use, the latest first. */
  ghost predicate ByRecency<K, V>(capacity: nat, ops: seq<Op<K, V>>, l: seq<Entry<K, V>>) {
    && (forall i | 0 <= i < |l| :: LastUse(capacity, ops, l[i].key) >= 0)
    && (forall i, j | 0 <= i < j < |l| :: LastUse(capacity, ops, l[i].key) > LastUse(capacity, ops, l[j].key))
  }

  lemma {:induction false} WithoutAt<K, V>(l: seq<Entry<K, V>>, k: K, i: nat) returns (m: nat)
    requires i < |Without(l, k)|
    ensures i <= m < |l| && l[m] == Without(l, k)[i] && l[m].key != k
  {
    if l[0].key == k {
      m := WithoutAt(l[1..], k, i);
      m := m + 1;
    } else if i == 0 {
      m := 0;
    } else {
      m := WithoutAt(l[1..], k, i - 1);
      m := m + 1;
    }
  }

  lemma {:induction false} WithoutInOrder<K, V>(l: seq<Entry<K, V>>, k: K, i: nat, j: nat) returns (m: nat, n: nat)
    requires i < j < |Without(l, k)|
    ensures m < n < |l| && l[m] == Without(l, k)[i] && l[n] == Without(l, k)[j] && l[m].key != k && l[n].key != k
  {
    if l[0].key == k {
      m, n := WithoutInOrder(l[1..], k, i, j);
      m, n := m + 1, n + 1;
    } else if i == 0 {
      m := 0;
      n := WithoutAt(l[1..], k, j - 1);
      n := n + 1;
    } else {
      m, n := WithoutInOrder(l[1..], k, i - 1, j - 1);
      m, n := m + 1, n + 1;
    }
  }

  /** Taking a key out leaves the others in order, after calls that use no other. */
  lemma WithoutByRecency<K, V>(capacity: nat, front: seq<Op<K, V>>, op: Op<K, V>, l: seq<Entry<K, V>>, k: K)
    requires ByRecency(capacity, front, l)
    requires forall x | x != k :: LastUse(capacity, front + [op], x) == LastUse(capacity, front, x)
    ensures ByRecency(capacity, front + [op], Without(l, k))
  {
    hide LastUse;
    var r := Without(l, k);
    forall i | 0 <= i < |r| ensures LastUse(capacity, front + [op], r[i].key) >= 0 {
      var m := WithoutAt(l, k, i);
    }
    forall i, j | 0 <= i < j < |r| ensures LastUse(capacity, front + [op], r[i].key) > LastUse(capacity, front + [op], r[j].key) {
      var m, n := WithoutInOrder(l, k, i, j);
    }
  }

  /** The key used by the last call belongs in front. */
  lemma InFront<K, V>(capacity: nat, ops: seq<Op<K, V>>, e: Entry<K, V>, l: seq<Entry<K, V>>)
    requires ops != [] && ByRecency(capacity, ops, l) && Uses(capacity, ops, |ops| - 1, e.key)
    requires forall i | 0 <= i < |l| :: l[i].key != e.key
    requires forall x | x != e.key :: LastUse(capacity, ops, x) < |ops| - 1
    ensures ByRecency(capacity, ops, [e] + l)
  {
    assert LastUse(capacity, ops, e.key) == |ops| - 1;
    hide LastUse, Uses;
    var r := [e] + l;
    forall i | 0 <= i < |r| ensures LastUse(capacity, ops, r[i].key) >= 0 {
      assert i > 0 ==> r[i] == l[i - 1];
    }
    forall i, j | 0 <= i < j < |r| ensures LastUse(capacity, ops, r[i].key) > LastUse(capacity, ops, r[j].key) {
      assert r[j] == l[j - 1] && (i > 0 ==> r[i] == l[i - 1]);
    }
  }

  lemma {:induction false} AbsentEverywhere<K, V>(l: seq<Entry<K, V>>, k: K)
    requires !Has(l, k)
    ensures forall i | 0 <= i < |l| :: l[i].key != k
  {
    if l != [] {
      AbsentEverywhere(l[1..], k);
      assert forall i | 1 <= i < |l| :: l[i] == l[1..][i - 1];
    }
  }

  lemma OthersUnused<K, V>(capacity: nat, front: seq<Op<K, V>>, op: Op<K, V>, k: K)
    requires op.Clear? || op.key == k
    ensures forall x | x != k :: LastUse(capacity, front + [op], x) == LastUse(capacity, front, x)
    ensures op.Delete? || op.Clear? || (op.Get? && !Has(Run(capacity, [], front), k)) ==>
              LastUse(capacity, front + [op], k) == LastUse(capacity, front, k)
    ensures op.Set? || (op.Get? && Has(Run(capacity, [], front), k)) ==> Uses(capacity, front + [op], |front|, k)
  {
    assert (front + [op])[..|front|] == front;
  }

  /** In every run the keys stand in strictly decreasing order of last use. */
  lemma {:induction false} RecencyOrder<K, V>(capacity: nat, ops: seq<Op<K, V>>)
    requires capacity > 0
    ensures ByRecency(capacity, ops, Run(capacity, [], ops))
  {
    if ops != [] {
      var front, op := ops[..|ops| - 1], ops[|ops| - 1];
      assert ops == front + [op];
      RecencyOrder(capacity, front);
      RunKeeps(capacity, front);
      if !op.Clear? {
        RecencyStep(capacity, front, op);
      }
    }
  }

  lemma RecencyStep<K, V>(capacity: nat, front: seq<Op<K, V>>, op: Op<K, V>)
    requires capacity > 0 && !op.Clear? && Distinct(Run(capacity, [], front)) && ByRecency(capacity, front, Run(capacity, [], front))
    ensures ByRecency(capacity, front + [op], Apply(capacity, Run(capacity, [], front), op))
  {
    hide LastUse, Uses, Run, ByRecency;
    var l, k, ops := Run(capacity, [], front), op.key, front + [op];
    OthersUnused(capacity, front, op, k);
    WithoutByRecency(capacity, front, op, l, k);
    WithoutDistinct(l, k);
    WithoutLookup(l, k, k);
    AbsentEverywhere(Without(l, k), k);
    if op.Set? || (op.Get? && Has(l, k)) {
      var e := Entry(k, if op.Set? then op.value else Lookup(l, k).value);
      var rest := if Has(l, k) then Without(l, k) else if |l| >= capacity && l != [] then DropLast(l) else l;
      DropLastByRecency(capacity, ops, Without(l, k));
      InFront(capacity, ops, e, rest);
    }
  }

  lemma DropLastByRecency<K, V>(capacity: nat, ops: seq<Op<K, V>>, l: seq<Entry<K, V>>)
    requires ByRecency(capacity, ops, l)
    ensures l != [] ==> ByRecency(capacity, ops, DropLast(l))
  {
  }

  lemma {:induction false} HasAt<K, V>(l: seq<Entry<K, V>>, k: K) returns (i: nat)
    requires Has(l, k)
    ensures i < |l| && l[i].key == k
  {
    if l[0].key == k {
      i := 0;
    } else {
      i := HasAt(l[1..], k);
      i := i + 1;
    }
  }

  lemma {:induction false} DistinctKeysAt<K, V>(l: seq<Entry<K, V>>, i: nat, j: nat)
    requires Distinct(l) && i < j < |l|
    ensures l[i].key != l[j].key
  {
    if i == 0 {
      AbsentEverywhere(l[1..], l[0].key);
      assert l[j] == l[1..][j - 1];
    } else {
      DistinctKeysAt(l[1..], i - 1, j - 1);
    }
  }

  /** The least recently used key is the last one. */
  lemma LeastIsLast<K, V>(capacity: nat, ops: seq<Op<K, V>>, l: seq<Entry<K, V>>, x: K)
    requires ByRecency(capacity, ops, l) && Distinct(l) && Has(l, x)
    ensures l[|l| - 1].key == x <==> forall y | Has(l, y) && y != x :: LastUse(capacity, ops, x) < LastUse(capacity, ops, y)
  {
    hide LastUse;
    var n := HasAt(l, x);
    var last := |l| - 1;
    if n == last {
      forall y | Has(l, y) && y != x ensures LastUse(capacity, ops, x) < LastUse(capacity, ops, y) {
        var m := HasAt(l, y);
      }
    } else {
      DistinctKeysAt(l, n, last);
      DropLastRemoves(l);
    }
  }

  /** So what a Set drops is exactly the least recently used key, when the cache is full and the key new. */
  lemma EvictsLeastRecentlyUsed<K, V>(capacity: nat, ops: seq<Op<K, V>>, k: K, v: V, x: K)
    requires capacity > 0 && x != k && Has(Run(capacity, [], ops), x)
    ensures var l := Run(capacity, [], ops);
            !Has(Run(capacity, [], ops + [Set(k, v)]), x) <==>
              |l| == capacity && !Has(l, k) && forall y | Has(l, y) && y != x :: LastUse(capacity, ops, x) < LastUse(capacity, ops, y)
  {
    hide LastUse, ByRecency, Apply;
    var l := Run(capacity, [], ops);
    assert (ops + [Set(k, v)])[..|ops|] == ops;
    RunKeeps(capacity, ops);
    RecencyOrder(capacity, ops);
    LeastIsLast(capacity, ops, l, x);
    SetThenLookup(capacity, l, k, v, x);
  }

  /** What each call does to what is cached: a Get changes no value, a Delete takes out its key alone, a
      Clear everything. */
  lemma OthersKeepValues<K, V>(capacity: nat, l: seq<Entry<K, V>>, k: K, x: K)
    requires capacity > 0 && Distinct(l)
    ensures Lookup(Apply(capacity, l, Op.Get(k)), x) == Lookup(l, x)
    ensures Lookup(Apply(capacity, l, Op.Delete(k)), x) == if x == k then None else Lookup(l, x)
    ensures Lookup(Apply(capacity, l, Op.Clear), x) == None
    ensures |Apply(capacity, l, Op.Get(k))| == |l|
  {
    WithoutLookup(l, k, x);
    WithoutDistinct(l, k);
    if Has(l, k) {
      LookupCons(Entry(k, Lookup(l, k).value), Without(l, k), x);
    }
  }

  /** The value of the latest Set of k. */
  function LatestValue<K(==), V>(ops: seq<Op<K, V>>, k: K): Option<V> {
    if ops == [] then None
    else if ops[|ops| - 1].Set? && ops[|ops| - 1].key == k then Some(ops[|ops| - 1].value)
    else LatestValue(ops[..|ops| - 1], k)
  }

  /** A cached key has the value last set for it, whatever has happened since. */
  lemma {:induction false} ValueIsLatest<K, V>(capacity: nat, ops: seq<Op<K, V>>, k: K)
    requires capacity > 0 && Has(Run(capacity, [], ops), k)
    ensures Lookup(Run(capacity, [], ops), k) == LatestValue(ops, k)
  {
    var front, op := ops[..|ops| - 1], ops[|ops| - 1];
    var l := Run(capacity, [], front);
    RunKeeps(capacity, front);
    if op.Set? {
      if op.key != k {
        SetThenLookup(capacity, l, op.key, op.value, k);
        ValueIsLatest(capacity, front, k);
      }
    } else {
      OthersKeepValues(capacity, l, if op.Clear? then k else op.key, k);
      ValueIsLatest(capacity, front, k);
    }
  }
}
