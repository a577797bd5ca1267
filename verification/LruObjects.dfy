/** The Cache of packages/golib/lru/lru.go: a map of list elements and the list's order of them, proved
    to agree with the plain recency list of module Lru. */
module LruObjects {
  import opened Lru
  import opened Wrappers

  /** A *list.Element holding an *entry. */
  class Element<K, V> {
    const key: K
    var value: V

    constructor (key: K, value: V)
      ensures this.key == key && this.value == value
    {
      this.key, this.value := key, value;
    }
  }

  /** container/list on element references: Remove, and the order Front to Back. */
  function Take<T(==)>(s: seq<T>, x: T): seq<T> {
    if s == [] then [] else if s[0] == x then s[1..] else [s[0]] + Take(s[1..], x)
  }

  ghost function Entries<K, V>(order: seq<Element<K, V>>): seq<Entry<K, V>>
    reads order
  {
    seq(|order|, i requires 0 <= i < |order| reads order => Entry(order[i].key, order[i].value))
  }

  ghost predicate DistinctKeys<K, V>(order: seq<Element<K, V>>) {
    forall i, j | 0 <= i < j < |order| :: order[i].key != order[j].key
  }

  /** The map and the list hold the same elements, the map under their keys. */
  ghost predicate OneEach<K, V>(items: map<K, Element<K, V>>, order: seq<Element<K, V>>) {
    && DistinctKeys(order)
    && (forall e | e in order :: e.key in items && items[e.key] == e)
    && (forall k | k in items :: items[k] in order && items[k].key == k)
  }

  lemma {:induction false} EntriesLookup<K, V>(order: seq<Element<K, V>>, e: Element<K, V>)
    requires DistinctKeys(order) && e in order
    ensures Lookup(Entries(order), e.key) == Some(e.value)
  {
    assert Entries(order)[1..] == Entries(order[1..]);
    if order[0] != e {
      EntriesLookup(order[1..], e);
    }
  }

  lemma {:induction false} EntriesMiss<K, V>(order: seq<Element<K, V>>, k: K)
    requires forall e | e in order :: e.key != k
    ensures Lookup(Entries(order), k) == None
  {
    if order != [] {
      assert Entries(order)[1..] == Entries(order[1..]);
      assert order[0] in order;
      EntriesMiss(order[1..], k);
    }
  }

  lemma {:induction false} EntriesDistinct<K, V>(order: seq<Element<K, V>>)
    requires DistinctKeys(order)
    ensures Distinct(Entries(order))
  {
    if order != [] {
      EntriesDistinct(order[1..]);
      assert Entries(order)[1..] == Entries(order[1..]);
      EntriesMiss(order[1..], order[0].key);
    }
  }

  lemma {:induction false} TakeKeepsOthers<K, V>(order: seq<Element<K, V>>, x: Element<K, V>)
    requires DistinctKeys(order) && x in order
    ensures DistinctKeys(Take(order, x)) && |Take(order, x)| == |order| - 1
    ensures forall e | e in Take(order, x) :: e in order && e != x
    ensures forall e | e in order && e != x :: e in Take(order, x)
  {
    assert forall e | e in order :: e == order[0] || e in order[1..];
    assert forall e | e in order[1..] :: e in order;
    if order[0] != x {
      TakeKeepsOthers(order[1..], x);
      forall e | e in Take(order[1..], x) ensures e.key != order[0].key {
        assert e in order[1..];
        var m :| 1 <= m < |order| && order[m] == e;
      }
    }
  }

  lemma {:induction false} TakeEntries<K, V>(order: seq<Element<K, V>>, x: Element<K, V>)
    requires DistinctKeys(order) && x in order
    ensures Entries(Take(order, x)) == Without(Entries(order), x.key)
  {
    var tail := order[1..];
    assert Entries(order)[1..] == Entries(tail);
    if order[0] == x {
      EntriesMiss(tail, x.key);
      EntriesDistinct(tail);
      WithoutDistinct(Entries(tail), x.key);
    } else {
      TakeEntries(tail, x);
      assert Entries([order[0]] + Take(tail, x)) == [Entry(order[0].key, order[0].value)] + Entries(Take(tail, x));
    }
  }

  lemma MapLookup<K, V>(items: map<K, Element<K, V>>, order: seq<Element<K, V>>, key: K)
    requires OneEach(items, order)
    ensures Lookup(Entries(order), key) == if key in items then Some(items[key].value) else None
  {
    if key in items {
      EntriesLookup(order, items[key]);
    } else {
      EntriesMiss(order, key);
    }
  }

  lemma Removed<K, V>(items: map<K, Element<K, V>>, order: seq<Element<K, V>>, x: Element<K, V>)
    requires OneEach(items, order) && x in order
    ensures OneEach(items - {x.key}, Take(order, x))
  {
    TakeKeepsOthers(order, x);
    forall e | e in Take(order, x) ensures e.key in items - {x.key} {
      assert e in order && e != x;
    }
  }

  lemma Pushed<K, V>(items: map<K, Element<K, V>>, order: seq<Element<K, V>>, x: Element<K, V>)
    requires OneEach(items, order) && x.key !in items
    ensures OneEach(items[x.key := x], [x] + order)
  {
    forall e | e in [x] + order ensures e == x || (e.key in items && items[e.key] == e) {
      assert e == x || e in order;
    }
    forall j | 0 <= j < |order| ensures order[j].key != x.key {
      assert order[j] in order;
    }
  }

  /** MoveToFront. */
  lemma MovedToFront<K, V>(items: map<K, Element<K, V>>, order: seq<Element<K, V>>, x: Element<K, V>)
    requires OneEach(items, order) && x in order
    ensures OneEach(items, [x] + Take(order, x)) && |[x] + Take(order, x)| == |order|
  {
    hide Entries, Take, DistinctKeys;
    Removed(items, order, x);
    assert items[x.key] == x && DistinctKeys(order);
    TakeKeepsOthers(order, x);
    Pushed(items - {x.key}, Take(order, x), x);
    assert (items - {x.key})[x.key := x] == items;
  }

  lemma FrontEntries<K, V>(order: seq<Element<K, V>>, x: Element<K, V>, rest: seq<Element<K, V>>)
    requires DistinctKeys(order) && x in order && rest == Take(order, x)
    ensures Entries(rest) == Without(Entries(order), x.key)
    ensures Entries([x] + rest) == [Entry(x.key, x.value)] + Entries(rest)
    ensures forall i | 0 <= i < |rest| :: rest[i] != x
  {
    TakeEntries(order, x);
    TakeKeepsOthers(order, x);
    forall i | 0 <= i < |rest| ensures rest[i] != x {
      assert rest[i] in rest;
    }
  }

  class Cache<K(==), V> {
    const capacity: nat
    var items: map<K, Element<K, V>>
    var order: seq<Element<K, V>>
    /** The calls of onEvict, in order. */
    var evicted: seq<Entry<K, V>>

    ghost predicate Valid()
      reads this
    {
      capacity > 0 && |order| <= capacity && OneEach(items, order)
    }

    /** The recency list this cache stands for. */
    ghost function List(): seq<Entry<K, V>>
      reads this, order
    {
      Entries(order)
    }

    constructor (capacity: int)
      ensures Valid() && List() == [] && evicted == []
      ensures this.capacity == if capacity <= 0 then 128 else capacity
    {
      this.capacity := if capacity <= 0 then 128 else capacity;
      items, order, evicted := map[], [], [];
    }

    method Get(key: K) returns (r: Option<V>)
      requires Valid()
      modifies this
      ensures Valid() && evicted == old(evicted)
      ensures r == Lookup(old(List()), key)
      ensures List() == Apply(capacity, old(List()), Op.Get(key))
      ensures r.Some? ==> |order| == |old(order)| && order[0].key == key && List()[0] == Entry(key, r.value)
    {
      MapLookup(items, order, key);
      if key in items {
        var elem := items[key];
        MovedToFront(items, order, elem);
        FrontEntries(order, elem, Take(order, elem));
        order := [elem] + Take(order, elem);
        return Some(elem.value);
      }
      return None;
    }

    /** A full cache given a new key evicts its last entry, and only that. */
    method Set(key: K, value: V)
      requires Valid()
      modifies this, order
      ensures Valid()
      ensures List() == Apply(capacity, old(List()), Op.Set(key, value))
      ensures evicted == old(evicted) +
                (if !Has(old(List()), key) && |old(List())| == capacity then [old(List())[capacity - 1]] else [])
    {
      MapLookup(items, order, key);
      if key in items {
        Refresh(items[key], value);
        return;
      }
      if |order| >= capacity {
        EvictOldest();
      }
      PushFront(key, value);
    }

    /** Set of a key that is there: move its element to the front and overwrite the value. */
    method Refresh(elem: Element<K, V>, value: V)
      requires Valid() && elem in order
      modifies this`order, elem
      ensures Valid() && |order| == |old(order)|
      ensures List() == [Entry(elem.key, value)] + Without(old(List()), elem.key)
    {
      MovedToFront(items, order, elem);
      FrontEntries(order, elem, Take(order, elem));
      var rest := Take(order, elem);
      ghost var before := Entries(rest);
      order := [elem] + rest;
      elem.value := value;
      assert Entries(rest) == before;
      assert List() == [Entry(elem.key, value)] + Entries(rest);
    }

    method PushFront(key: K, value: V)
      requires Valid() && key !in items && |order| < capacity
      modifies this`order, this`items
      ensures Valid()
      ensures List() == [Entry(key, value)] + old(List())
    {
      var elem := new Element(key, value);
      order := [elem] + order;
      items := items[key := elem];
      assert List()[1..] == old(List());
    }

    method Delete(key: K) returns (found: bool)
      requires Valid()
      modifies this
      ensures Valid() && found == Has(old(List()), key)
      ensures List() == Apply(capacity, old(List()), Op.Delete(key))
      ensures evicted == old(evicted) + (if found then [Entry(key, Lookup(old(List()), key).value)] else [])
    {
      MapLookup(items, order, key);
      if key !in items {
        EntriesDistinct(order);
        WithoutDistinct(List(), key);
        return false;
      }
      RemoveElement(items[key]);
      return true;
    }

    method Clear()
      requires Valid()
      modifies this
      ensures Valid() && evicted == old(evicted)
      ensures List() == Apply(capacity, old(List()), Op.Clear)
    {
      items, order := map[], [];
    }

    /** Back() of an empty list is nil, and nothing happens. */
    method EvictOldest()
      requires Valid()
      modifies this
      ensures Valid() && forall e | e in order :: e in old(order)
      ensures items.Keys <= old(items.Keys)
      ensures old(order) == [] ==> order == [] && evicted == old(evicted)
      ensures old(order) != [] ==>
                && |order| == |old(order)| - 1 && List() == DropLast(old(List()))
                && evicted == old(evicted) + [old(List())[|old(List())| - 1]]
    {
      if order == [] {
        return;
      }
      EntriesDistinct(order);
      DropLastRemoves(List());
      RemoveElement(order[|order| - 1]);
    }

    method RemoveElement(elem: Element<K, V>)
      requires Valid() && elem in order
      modifies this
      ensures Valid() && order == Take(old(order), elem) && items == old(items) - {elem.key}
      ensures List() == Without(old(List()), elem.key) && |order| == |old(order)| - 1
      ensures evicted == old(evicted) + [Entry(elem.key, elem.value)]
    {
      Removed(items, order, elem);
      TakeKeepsOthers(order, elem);
      TakeEntries(order, elem);
      order := Take(order, elem);
      items := items - {elem.key};
      evicted := evicted + [Entry(elem.key, elem.value)];
    }

    /** Most to least recently used. */
    method Keys() returns (keys: seq<K>)
      requires Valid()
      ensures |keys| == |List()| && forall i | 0 <= i < |keys| :: keys[i] == List()[i].key
    {
      keys := [];
      for i := 0 to |order|
        invariant |keys| == i && forall j | 0 <= j < i :: keys[j] == order[j].key
      {
        keys := keys + [order[i].key];
      }
    }
  }
}
