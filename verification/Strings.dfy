/** Go's sort.Strings: byte-wise lexicographic order, under which a sorted arrangement is unique. */
module Strings {
  predicate Leq(a: string, b: string) {
    a == [] || (b != [] && (a[0] < b[0] || (a[0] == b[0] && Leq(a[1..], b[1..]))))
  }

  /** The two texts first differ at i, where a has the smaller byte. */
  predicate SmallerAt(a: string, b: string, i: nat) {
    i < |a| && i < |b| && a[..i] == b[..i] && a[i] < b[i]
  }

  ghost predicate Smaller(a: string, b: string) {
    exists i :: SmallerAt(a, b, i)
  }

  lemma SmallerTails(a: string, b: string)
    requires a != [] && b != [] && a[0] == b[0]
    ensures Smaller(a, b) <==> Smaller(a[1..], b[1..])
  {
    if Smaller(a, b) {
      var i: nat :| SmallerAt(a, b, i);
      assert a[1..][..i - 1] == a[..i][1..] && b[1..][..i - 1] == b[..i][1..];
      assert SmallerAt(a[1..], b[1..], i - 1);
    }
    if Smaller(a[1..], b[1..]) {
      var i: nat :| SmallerAt(a[1..], b[1..], i);
      assert a[..i + 1] == [a[0]] + a[1..][..i] && b[..i + 1] == [b[0]] + b[1..][..i];
      assert SmallerAt(a, b, i + 1);
    }
  }

  lemma SmallerHeads(a: string, b: string)
    requires a != [] && b != [] && a[0] != b[0]
    ensures Smaller(a, b) <==> a[0] < b[0]
  {
    assert a[..0] == b[..0];
    if a[0] < b[0] {
      assert SmallerAt(a, b, 0);
    }
    if Smaller(a, b) {
      var i: nat :| SmallerAt(a, b, i);
      assert i > 0 ==> a[..i][0] == b[..i][0];
    }
  }

  /** The byte at which two texts first differ decides, and a text comes after its beginnings. */
  lemma {:induction false} LeqExactly(a: string, b: string)
    ensures Leq(a, b) <==> a <= b || Smaller(a, b)
  {
    hide Smaller;
    if a != [] && b != [] {
      if a[0] == b[0] {
        SmallerTails(a, b);
        LeqExactly(a[1..], b[1..]);
        assert a == [a[0]] + a[1..] && b == [b[0]] + b[1..];
      } else {
        SmallerHeads(a, b);
      }
    } else if a != [] {
      NothingSmaller(a);
    }
  }

  lemma NothingSmaller(a: string)
    ensures !Smaller(a, [])
  {
  }

  lemma {:induction false} LeqTotal(a: string, b: string)
    ensures Leq(a, b) || Leq(b, a)
    ensures Leq(a, b) && Leq(b, a) ==> a == b
  {
    if a != [] && b != [] {
      LeqTotal(a[1..], b[1..]);
      assert a == [a[0]] + a[1..] && b == [b[0]] + b[1..];
    }
  }

  lemma {:induction false} LeqTransitive(a: string, b: string, c: string)
    requires Leq(a, b) && Leq(b, c)
    ensures Leq(a, c)
  {
    if a != [] && b != [] && c != [] && a[0] == b[0] == c[0] {
      LeqTransitive(a[1..], b[1..], c[1..]);
    }
  }

  ghost predicate Sorted(s: seq<string>) {
    forall i, j | 0 <= i < j < |s| :: Leq(s[i], s[j])
  }

  lemma FirstOfSorted(s: seq<string>, x: string)
    requires Sorted(s) && s != [] && x in s
    ensures Leq(s[0], x)
  {
    LeqTotal(x, x);
  }

  lemma SameFirst(a: seq<string>, b: seq<string>)
    requires Sorted(a) && Sorted(b) && multiset(a) == multiset(b) && a != [] && b != []
    ensures a[0] == b[0]
  {
    assert a[0] in multiset(b) && b[0] in multiset(a);
    FirstOfSorted(a, b[0]);
    FirstOfSorted(b, a[0]);
    LeqTotal(a[0], b[0]);
  }

  /** Two sorted arrangements of the same strings are the same. */
  lemma {:induction false} SortedUnique(a: seq<string>, b: seq<string>)
    requires Sorted(a) && Sorted(b) && multiset(a) == multiset(b)
    ensures a == b
  {
    hide Leq, Sorted;
    assert |a| == |multiset(a)| == |multiset(b)| == |b|;
    if a != [] {
      SameFirst(a, b);
      SortedTail(a);
      SortedTail(b);
      assert a == [a[0]] + a[1..] && b == [b[0]] + b[1..];
      assert multiset(a[1..]) == multiset(a) - multiset{a[0]} == multiset(b[1..]);
      SortedUnique(a[1..], b[1..]);
    }
  }

  lemma SortedTail(s: seq<string>)
    requires Sorted(s) && s != []
    ensures Sorted(s[1..])
  {
  }

  ghost predicate Distinct(s: seq<string>) {
    forall i, j | 0 <= i < j < |s| :: s[i] != s[j]
  }

  lemma {:induction false} DistinctMultiset(s: seq<string>)
    requires Distinct(s)
    ensures multiset(s) == multiset(set x | x in s)
  {
    if s != [] {
      DistinctMultiset(s[1..]);
      assert s == [s[0]] + s[1..];
      assert (set x | x in s) == {s[0]} + (set x | x in s[1..]);
    }
  }

  /** A set has one sorted listing. */
  lemma SortedListingUnique(a: seq<string>, b: seq<string>)
    requires Sorted(a) && Sorted(b) && Distinct(a) && Distinct(b)
    requires forall x :: x in a <==> x in b
    ensures a == b
  {
    DistinctMultiset(a);
    DistinctMultiset(b);
    assert (set x | x in a) == (set x | x in b);
    SortedUnique(a, b);
  }

  lemma CountsTwo(s: seq<string>, i: nat, j: nat)
    requires i < j < |s|
    ensures s[i] == s[j] ==> multiset(s)[s[i]] >= 2
  {
    assert s == s[..j] + s[j..];
    assert s[i] in s[..j] && s[j] in s[j..];
  }

  lemma MultisetDistinct(a: seq<string>, b: seq<string>)
    requires multiset(a) == multiset(b) && Distinct(a)
    ensures Distinct(b) && |a| == |b|
    ensures forall x :: x in b <==> x in a
  {
    assert |a| == |multiset(a)| == |multiset(b)| == |b|;
    forall x ensures x in b <==> x in a {
      assert x in a <==> x in multiset(a);
      assert x in b <==> x in multiset(b);
    }
    DistinctMultiset(a);
    forall i, j | 0 <= i < j < |b| ensures b[i] != b[j] {
      CountsTwo(b, i, j);
    }
  }

  /** And it has one. */
  lemma {:induction false} SortedListingExists(names: set<string>) returns (s: seq<string>)
    ensures Sorted(s) && Distinct(s) && forall x :: x in s <==> x in names
    decreases |names|
  {
    if names == {} {
      s := [];
    } else {
      var x :| x in names;
      var rest := SortedListingExists(names - {x});
      s := PutIn(rest, x);
    }
  }

  lemma PutIn(rest: seq<string>, x: string) returns (s: seq<string>)
    requires Sorted(rest) && Distinct(rest) && x !in rest
    ensures Sorted(s) && Distinct(s) && forall y :: y in s <==> y == x || y in rest
  {
    hide Leq, Sorted;
    var i := PlaceFor(rest, x);
    s := rest[..i] + [x] + rest[i..];
    InsertKeepsOrder(rest, i, x);
    InsertKeepsDistinct(rest, i, x);
    assert rest == rest[..i] + rest[i..];
  }

  lemma InsertKeepsDistinct(s: seq<string>, i: nat, x: string)
    requires Distinct(s) && i <= |s| && x !in s
    ensures Distinct(s[..i] + [x] + s[i..])
  {
  }

  lemma {:induction false} PlaceFor(s: seq<string>, x: string) returns (i: nat)
    requires Sorted(s)
    ensures i <= |s| && (i > 0 ==> Leq(s[i - 1], x)) && forall j | i <= j < |s| :: Leq(x, s[j])
    decreases |s|
  {
    if s == [] || Leq(s[|s| - 1], x) {
      i := |s|;
    } else {
      i := PlaceFor(s[..|s| - 1], x);
      LeqTotal(s[|s| - 1], x);
    }
  }

  method Insert(s: seq<string>, x: string) returns (r: seq<string>)
    requires Sorted(s)
    ensures Sorted(r) && multiset(r) == multiset(s) + multiset{x}
  {
    var i := |s|;
    while i > 0 && !Leq(s[i - 1], x)
      invariant 0 <= i <= |s|
      invariant forall j | i <= j < |s| :: Leq(x, s[j])
    {
      LeqTotal(s[i - 1], x);
      i := i - 1;
    }
    InsertKeepsOrder(s, i, x);
    assert s == s[..i] + s[i..];
    r := s[..i] + [x] + s[i..];
  }

  lemma InsertKeepsOrder(s: seq<string>, i: nat, x: string)
    requires Sorted(s) && i <= |s|
    requires i > 0 ==> Leq(s[i - 1], x)
    requires forall j | i <= j < |s| :: Leq(x, s[j])
    ensures Sorted(s[..i] + [x] + s[i..])
  {
    forall j | 0 <= j < i ensures Leq(s[j], x) {
      if j < i - 1 {
        LeqTransitive(s[j], s[i - 1], x);
      }
    }
  }

  /** The sorted arrangement of these strings. */
  function Arranged(names: seq<string>): (s: seq<string>)
    ensures |s| == |names|
  {
    if names == [] then [] else InsertedIn(Arranged(names[..|names| - 1]), names[|names| - 1])
  }

  function InsertedIn(s: seq<string>, x: string): (r: seq<string>)
    ensures |r| == |s| + 1
  {
    if s == [] || Leq(s[|s| - 1], x) then s + [x] else InsertedIn(s[..|s| - 1], x) + [s[|s| - 1]]
  }

  lemma {:induction false} InsertedInSorted(s: seq<string>, x: string)
    requires Sorted(s)
    ensures Sorted(InsertedIn(s, x)) && multiset(InsertedIn(s, x)) == multiset(s) + multiset{x}
  {
    if s == [] {
      LeqTotal(x, x);
    } else {
      var front, last := s[..|s| - 1], s[|s| - 1];
      assert s == front + [last];
      if Leq(last, x) {
        InsertKeepsOrder(s, |s|, x);
        assert s[..|s|] + [x] + s[|s|..] == s + [x];
      } else {
        LeqTotal(last, x);
        InsertedInSorted(front, x);
        AppendKeepsOrder(InsertedIn(front, x), last, front, x);
      }
    }
  }

  lemma AppendKeepsOrder(r: seq<string>, last: string, front: seq<string>, x: string)
    requires Sorted(r) && Sorted(front + [last]) && Leq(x, last) && multiset(r) == multiset(front) + multiset{x}
    ensures Sorted(r + [last])
  {
    forall i | 0 <= i < |r| ensures Leq(r[i], last) {
      assert r[i] in multiset(r);
      if r[i] != x {
        assert r[i] in front;
        var j :| 0 <= j < |front| && front[j] == r[i];
        assert Leq((front + [last])[j], (front + [last])[|front|]);
      }
    }
  }

  lemma {:induction false} ArrangedSorted(names: seq<string>)
    ensures Sorted(Arranged(names)) && multiset(Arranged(names)) == multiset(names)
  {
    if names != [] {
      ArrangedSorted(names[..|names| - 1]);
      assert names == names[..|names| - 1] + [names[|names| - 1]];
      InsertedInSorted(Arranged(names[..|names| - 1]), names[|names| - 1]);
    }
  }

  /** It does not depend on the order they are given in. */
  lemma ArrangedOnce(a: seq<string>, b: seq<string>)
    requires multiset(a) == multiset(b)
    ensures Arranged(a) == Arranged(b)
  {
    ArrangedSorted(a);
    ArrangedSorted(b);
    SortedUnique(Arranged(a), Arranged(b));
  }

  method Sort(names: seq<string>) returns (s: seq<string>)
    ensures Sorted(s) && multiset(s) == multiset(names)
  {
    s := [];
    for n := 0 to |names|
      invariant Sorted(s) && multiset(s) == multiset(names[..n])
    {
      assert names[..n + 1] == names[..n] + [names[n]];
      s := Insert(s, names[n]);
    }
    assert names[..|names|] == names;
  }
}
