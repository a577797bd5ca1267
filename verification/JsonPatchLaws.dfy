/** What the operations of packages/golib/jsonpatch/jsonpatch.go mean together, as whole patches on pointer
    texts: for the patches module JsonPatch applies. */
module JsonPatchLaws {
  import opened Decimal
  import opened GoInts
  import opened JsonPatch
  import opened Wrappers
  import P = JsonPointer

  /** Paths below the root that a pointer text can name: "" is refused, and "/" is read as the root. */
  predicate Addressable(path: seq<string>) {
    path != [] && path != [""]
  }

  lemma Reads(path: seq<string>)
    requires Addressable(path)
    ensures P.Format(path) != "" && P.Parse(P.Format(path)) == path
  {
    P.ParseFormat(path);
  }

  // Patches in sequence.

  lemma {:induction false} ApplyBoth(doc: Json, a: seq<Operation>, b: seq<Operation>)
    ensures ApplyAll(doc, a + b) == if ApplyAll(doc, a).Err? then ApplyAll(doc, a) else ApplyAll(ApplyAll(doc, a).value, b)
    decreases |a|
  {
    hide ApplyOp;
    if a == [] {
      assert a + b == b;
    } else {
      assert (a + b)[1..] == a[1..] + b && (a + b)[0] == a[0];
      var r := ApplyOp(doc, a[0]);
      if r.Ok? {
        ApplyBoth(r.value, a[1..], b);
      }
    }
  }

  lemma ApplyOne(doc: Json, o: Operation)
    ensures ApplyAll(doc, [o]) == ApplyOp(doc, o)
  {
    hide ApplyOp;
    assert [o][1..] == [];
  }

  ghost predicate AllWellFormed(patch: seq<Operation>) {
    forall o | o in patch :: WellFormed(o)
  }

  lemma AppliedBoth(doc: Json, a: seq<Operation>, b: seq<Operation>)
    requires AllWellFormed(a) && AllWellFormed(b)
    ensures Applied(doc, a + b) == if Applied(doc, a).Err? then Applied(doc, a) else Applied(Applied(doc, a).value, b)
  {
    hide WellFormed, ApplyAll;
    ApplyBoth(doc, a, b);
    assert forall o | o in a + b :: o in a || o in b;
  }

  /** What each single operation does, as a patch. */
  lemma Single(doc: Json, p: seq<string>, f: seq<string>, v: Json)
    requires Addressable(p) && Addressable(f)
    ensures Applied(doc, [AddOp(p, v)]) == Add(doc, p, v)
    ensures Applied(doc, [RemoveOp(p)]) == Remove(doc, p)
    ensures Applied(doc, [MoveOp(f, p)]) == Move(doc, f, p)
    ensures Applied(doc, [CopyOp(f, p)]) == (if Get(doc, f).Err? then Get(doc, f) else Add(doc, p, Get(doc, f).value))
    ensures Applied(doc, [TestOp(p, v)]) ==
            if Get(doc, p).Err? then Get(doc, p) else if Get(doc, p).value == v then Ok(doc) else Err(TestFailed)
    ensures AllWellFormed([AddOp(p, v)]) && AllWellFormed([RemoveOp(p)]) && AllWellFormed([MoveOp(f, p)])
         && AllWellFormed([CopyOp(f, p)]) && AllWellFormed([TestOp(p, v)])
  {
    hide Add, Remove, Move, Get, P.Parse, P.Format, ApplyAll;
    Reads(p);
    Reads(f);
    ApplyOne(doc, AddOp(p, v));
    ApplyOne(doc, RemoveOp(p));
    ApplyOne(doc, MoveOp(f, p));
    ApplyOne(doc, CopyOp(f, p));
    ApplyOne(doc, TestOp(p, v));
  }

  /** A test anywhere in a patch lets it go on exactly when the value there, at that point, is the one
      expected, and changes nothing; otherwise the whole patch fails. */
  lemma TestOnlyGuards(doc: Json, a: seq<Operation>, p: seq<string>, w: Json, b: seq<Operation>)
    requires Addressable(p) && AllWellFormed(a) && AllWellFormed(b) && Applied(doc, a).Ok?
    ensures Get(Applied(doc, a).value, p) == Ok(w) ==> Applied(doc, a + [TestOp(p, w)] + b) == Applied(doc, a + b)
    ensures Get(Applied(doc, a).value, p) != Ok(w) ==> Applied(doc, a + [TestOp(p, w)] + b).Err?
  {
    hide Applied, Get, P.Format, WellFormed;
    var mid := Applied(doc, a).value;
    Single(mid, p, p, w);
    var t := [TestOp(p, w)];
    AppliedBoth(doc, a, t);
    assert AllWellFormed(a + t) by {
      assert forall o | o in a + t :: o in a || o in t;
    }
    AppliedBoth(doc, a + t, b);
    AppliedBoth(doc, a, b);
  }

  lemma Pair(doc: Json, a: Operation, b: Operation)
    requires AllWellFormed([a]) && AllWellFormed([b])
    ensures Applied(doc, [a, b]) == if Applied(doc, [a]).Err? then Applied(doc, [a]) else Applied(Applied(doc, [a]).value, [b])
  {
    hide Applied, WellFormed;
    AppliedBoth(doc, [a], [b]);
    assert [a] + [b] == [a, b];
  }

  /** What an add put in place a test finds there, and nothing else. */
  lemma AddThenTest(doc: Json, p: seq<string>, v: Json, w: Json)
    requires Sized(doc) && Addressable(p) && Applied(doc, [AddOp(p, v)]).Ok? && !Appends(doc, p)
    ensures Applied(doc, [AddOp(p, v), TestOp(p, w)]) == if v == w then Applied(doc, [AddOp(p, v)]) else Err(TestFailed)
  {
    hide Applied, Get, Add, Appends, Sized, WellFormed;
    Single(doc, p, p, v);
    Single(Add(doc, p, v).value, p, p, w);
    GetAfterAdd(doc, p, v);
    Pair(doc, AddOp(p, v), TestOp(p, w));
  }

  /** A remove undoes an add exactly when that neither overwrote nor appended. */
  lemma AddThenRemove(doc: Json, p: seq<string>, v: Json)
    requires Sized(doc) && Addressable(p) && Applied(doc, [AddOp(p, v)]).Ok?
    ensures Applied(doc, [AddOp(p, v), RemoveOp(p)]) == Ok(doc) <==> !Overwrites(doc, p) && !Appends(doc, p)
  {
    hide Applied, Get, Add, Remove, Appends, Overwrites, Landing, Sized, WellFormed;
    Single(doc, p, p, v);
    Single(Add(doc, p, v).value, p, p, v);
    Pair(doc, AddOp(p, v), RemoveOp(p));
    if Appends(doc, p) {
      AppendIsNotFoundAgain(doc, p, v);
      AddAfterRemove(Add(doc, p, v).value, p);
    } else {
      LandingWithoutAppend(doc, p, v);
      RemoveAfterAdd(doc, p, v);
    }
  }

  /** After a copy a test finds at its target exactly what it would have found at its source. */
  lemma CopyThenTest(doc: Json, f: seq<string>, p: seq<string>, x: Json)
    requires Sized(doc) && Addressable(p) && Addressable(f) && Applied(doc, [CopyOp(f, p)]).Ok? && !Appends(doc, p)
    ensures Applied(doc, [CopyOp(f, p), TestOp(p, x)]).Ok? <==> Applied(doc, [TestOp(f, x)]).Ok?
    ensures Applied(doc, [CopyOp(f, p), TestOp(p, x)]).Ok? ==>
              Applied(doc, [CopyOp(f, p), TestOp(p, x)]) == Applied(doc, [AddOp(p, x)])
  {
    hide Applied, Get, Add, Appends, Sized, WellFormed;
    Single(doc, p, f, x);
    Single(doc, f, f, x);
    var v := Get(doc, f).value;
    Single(Add(doc, p, v).value, p, p, x);
    GetAfterAdd(doc, p, v);
    Pair(doc, CopyOp(f, p), TestOp(p, x));
  }

  /** So does a move, which leaves its target as if the value had been removed and added there. */
  lemma MoveThenTest(doc: Json, f: seq<string>, p: seq<string>, x: Json)
    requires Sized(doc) && Addressable(p) && Addressable(f) && Applied(doc, [MoveOp(f, p)]).Ok?
    requires Applied(doc, [RemoveOp(f)]).Ok? && !Appends(Applied(doc, [RemoveOp(f)]).value, p)
    ensures Applied(doc, [MoveOp(f, p), TestOp(p, x)]).Ok? <==> Applied(doc, [TestOp(f, x)]).Ok?
    ensures Applied(doc, [TestOp(f, x)]).Ok? ==>
              Applied(doc, [MoveOp(f, p)]) == Applied(doc, [RemoveOp(f), AddOp(p, x)])
  {
    hide Applied, Get, Add, Remove, Appends, Sized, WellFormed;
    Single(doc, p, f, x);
    Single(doc, f, f, x);
    var v, rest := Get(doc, f).value, Remove(doc, f).value;
    RemoveKeepsSized(doc, f);
    Single(rest, p, p, x);
    GetAfterAdd(rest, p, v);
    Single(Add(rest, p, v).value, p, p, x);
    Pair(doc, MoveOp(f, p), TestOp(p, x));
    Pair(doc, RemoveOp(f), AddOp(p, x));
  }

  // What an edit leaves alone.

  /** The place at q is not inside the place an edit at p makes, takes away or moves: another key, an
      earlier element, or under another element. */
  predicate Aside(doc: Json, p: seq<string>, q: seq<string>) {
    p != [] && q != [] &&
    match doc
    case Obj(fields) => p[0] != q[0] || (|p| > 1 && p[0] in fields && Aside(fields[p[0]], p[1..], q[1..]))
    case Arr(items) =>
      (match (P.Atoi(p[0]), P.Atoi(q[0]))
       case (Some(i), Some(j)) =>
         if |p| == 1 then j < i else i != j || (0 <= i < |items| && Aside(items[i], p[1..], q[1..]))
       case (None, Some(_)) => true
       case _ => false)
    case _ => false
  }

  lemma {:induction false} AddLeavesAside(doc: Json, p: seq<string>, v: Json, q: seq<string>)
    requires Add(doc, p, v).Ok? && Get(doc, q).Ok? && Aside(doc, p, q)
    ensures Get(Add(doc, p, v).value, q) == Get(doc, q)
  {
    hide P.Atoi;
    match doc {
      case Obj(fields) =>
        if p[0] == q[0] {
          AddLeavesAside(fields[p[0]], p[1..], v, q[1..]);
        }
      case Arr(items) =>
        if |p| > 1 && P.Atoi(p[0]).Some? && P.Atoi(p[0]) == P.Atoi(q[0]) {
          AddLeavesAside(items[P.Atoi(p[0]).value], p[1..], v, q[1..]);
        }
      case _ =>
    }
  }

  lemma {:induction false} RemoveLeavesAside(doc: Json, p: seq<string>, q: seq<string>)
    requires Remove(doc, p).Ok? && Get(doc, q).Ok? && Aside(doc, p, q)
    ensures Get(Remove(doc, p).value, q) == Get(doc, q)
  {
    hide P.Atoi;
    match doc {
      case Obj(fields) =>
        if p[0] == q[0] {
          RemoveLeavesAside(fields[p[0]], p[1..], q[1..]);
        }
      case Arr(items) =>
        if |p| > 1 && P.Atoi(p[0]) == P.Atoi(q[0]) {
          RemoveLeavesAside(items[P.Atoi(p[0]).value], p[1..], q[1..]);
        }
      case _ =>
    }
  }

  /** An add or a remove changes no value aside of it. */
  lemma EditsLeaveAside(doc: Json, p: seq<string>, v: Json, q: seq<string>)
    requires Addressable(p) && Get(doc, q).Ok? && Aside(doc, p, q)
    ensures Applied(doc, [AddOp(p, v)]).Ok? ==> Get(Applied(doc, [AddOp(p, v)]).value, q) == Get(doc, q)
    ensures Applied(doc, [RemoveOp(p)]).Ok? ==> Get(Applied(doc, [RemoveOp(p)]).value, q) == Get(doc, q)
  {
    hide Applied, Get, Add, Remove, Aside;
    Single(doc, p, p, v);
    if Add(doc, p, v).Ok? {
      AddLeavesAside(doc, p, v, q);
    }
    if Remove(doc, p).Ok? {
      RemoveLeavesAside(doc, p, q);
    }
  }

  lemma AtIndex(items: seq<Json>, i: nat, v: Json)
    requires i < MAX63
    ensures i < |items| ==> Get(Arr(items), [Digits(i)]) == Ok(items[i])
    ensures i <= |items| ==> Add(Arr(items), [Digits(i)], v) == Ok(Arr(Insert(items, i, v)))
    ensures i < |items| ==> Remove(Arr(items), [Digits(i)]) == Ok(Arr(Cut(items, i)))
  {
    P.AtoiOfDigits(i);
    hide P.Atoi, Digits;
    assert [Digits(i)][1..] == [];
  }

  /** In an array an add moves the elements from its index on one place up, and a remove one place down. */
  lemma ElementsShift(items: seq<Json>, i: nat, v: Json, j: nat)
    requires |items| < MAX63 - 1 && i <= |items| && j < |items|
    ensures var r := Add(Arr(items), [Digits(i)], v);
            r.Ok? && Get(r.value, [Digits(if j < i then j else j + 1)]) == Get(Arr(items), [Digits(j)])
    ensures i < |items| && i != j ==>
            var r := Remove(Arr(items), [Digits(i)]);
            r.Ok? && Get(r.value, [Digits(if j < i then j else j - 1)]) == Get(Arr(items), [Digits(j)])
  {
    hide Get, Add, Remove, Digits;
    AtIndex(items, i, v);
    AtIndex(items, j, v);
    AtIndex(Insert(items, i, v), if j < i then j else j + 1, v);
    if i < |items| && i != j {
      AtIndex(Cut(items, i), if j < i then j else j - 1, v);
    }
  }

  /** The add reaches an array with a negative index as its last token. */
  predicate Underruns(doc: Json, path: seq<string>) {
    path != [] &&
    match doc
    case Obj(fields) => |path| > 1 && path[0] in fields && Underruns(fields[path[0]], path[1..])
    case Arr(items) =>
      (match P.Atoi(path[0])
       case None => false
       case Some(i) => if |path| == 1 then i < 0 else 0 <= i < |items| && Underruns(items[i], path[1..]))
    case _ => false
  }

  /** An add panics in exactly that case, and is otherwise refused or done. */
  lemma {:induction false} AddPanicsExactly(doc: Json, path: seq<string>, v: Json)
    ensures Add(doc, path, v) == Err(Panic) <==> Underruns(doc, path)
  {
    hide P.Atoi;
    if |path| > 1 {
      match doc {
        case Obj(fields) =>
          if path[0] in fields {
            AddPanicsExactly(fields[path[0]], path[1..], v);
          }
        case Arr(items) =>
          var i := P.Atoi(path[0]);
          if i.Some? && 0 <= i.value < |items| {
            AddPanicsExactly(items[i.value], path[1..], v);
          }
        case _ =>
      }
    }
  }

  // Validation.

  /** An operation without a field it needs, or unknown. */
  predicate Lacking(o: Operation) {
    || o.path == "" || o.op.OpOther?
    || (o.value == None && o.op in [OpAdd, OpReplace, OpTest])
    || (o.from == "" && o.op in [OpMove, OpCopy])
  }

  lemma {:induction false} GetNotMalformed(doc: Json, path: seq<string>)
    ensures Get(doc, path) != Err(Malformed)
  {
    if path != [] {
      match doc {
        case Obj(fields) =>
          if path[0] in fields {
            GetNotMalformed(fields[path[0]], path[1..]);
          }
        case Arr(items) =>
          var i := P.Atoi(path[0]);
          if i.Some? && 0 <= i.value < |items| {
            GetNotMalformed(items[i.value], path[1..]);
          }
        case _ =>
      }
    }
  }

  lemma {:induction false} AddNotMalformed(doc: Json, path: seq<string>, v: Json)
    ensures Add(doc, path, v) != Err(Malformed)
  {
    if |path| > 1 {
      match doc {
        case Obj(fields) =>
          if path[0] in fields {
            AddNotMalformed(fields[path[0]], path[1..], v);
          }
        case Arr(items) =>
          var i := P.Atoi(path[0]);
          if i.Some? && 0 <= i.value < |items| {
            AddNotMalformed(items[i.value], path[1..], v);
          }
        case _ =>
      }
    }
  }

  lemma {:induction false} RemoveNotMalformed(doc: Json, path: seq<string>)
    ensures Remove(doc, path) != Err(Malformed)
  {
    if |path| > 1 {
      match doc {
        case Obj(fields) =>
          if path[0] in fields {
            RemoveNotMalformed(fields[path[0]], path[1..]);
          }
        case Arr(items) =>
          var i := P.Atoi(path[0]);
          if i.Some? && 0 <= i.value < |items| {
            RemoveNotMalformed(items[i.value], path[1..]);
          }
        case _ =>
      }
    }
  }

  lemma OpNotMalformed(doc: Json, o: Operation)
    ensures ApplyOp(doc, o) != Err(Malformed)
  {
    hide Get, Add, Remove, P.Parse;
    var path, from := P.Parse(o.path), P.Parse(o.from);
    var value := if o.value.Some? then o.value.value else Null;
    GetNotMalformed(doc, path);
    GetNotMalformed(doc, from);
    AddNotMalformed(doc, path, value);
    RemoveNotMalformed(doc, path);
    RemoveNotMalformed(doc, from);
    if Get(doc, from).Ok? {
      AddNotMalformed(doc, path, Get(doc, from).value);
      if Remove(doc, from).Ok? {
        AddNotMalformed(Remove(doc, from).value, path, Get(doc, from).value);
      }
    }
    if Remove(doc, path).Ok? {
      AddNotMalformed(Remove(doc, path).value, path, value);
    }
  }

  lemma {:induction false} AllNotMalformed(doc: Json, patch: seq<Operation>)
    ensures ApplyAll(doc, patch) != Err(Malformed)
    decreases |patch|
  {
    hide ApplyOp;
    if patch != [] {
      OpNotMalformed(doc, patch[0]);
      if ApplyOp(doc, patch[0]).Ok? {
        AllNotMalformed(ApplyOp(doc, patch[0]).value, patch[1..]);
      }
    }
  }

  /** A patch is refused as malformed exactly when some operation in it, wherever it stands, lacks a field. */
  lemma MalformedExactly(doc: Json, patch: seq<Operation>)
    ensures Applied(doc, patch) == Err(Malformed) <==> exists o :: o in patch && Lacking(o)
  {
    AllNotMalformed(doc, patch);
    assert forall o: Operation :: WellFormed(o) <==> !Lacking(o);
  }
}
