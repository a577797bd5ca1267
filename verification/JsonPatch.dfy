/** packages/golib/jsonpatch/jsonpatch.go: RFC 6902 edits on JSON values. */
module JsonPatch {
  import opened Decimal
  import opened GoInts
  import opened Wrappers
  import P = JsonPointer

  datatype Json =
    | Null
    | Bool(b: bool)
    | Number(n: real)
    | Str(s: string)
    | Obj(fields: map<string, Json>)
    | Arr(items: seq<Json>)

  datatype Error =
    | KeyNotFound | BadIndex | OutOfRange | NotContainer | RootRemoved | TestFailed | UnknownOp | Malformed
    | Panic                        // target[:idx] with a negative idx

  type Outcome = Result<Json, Error>

  function Insert(s: seq<Json>, i: nat, v: Json): seq<Json>
    requires i <= |s|
  {
    s[..i] + [v] + s[i..]
  }

  function Cut(s: seq<Json>, i: nat): seq<Json>
    requires i < |s|
  {
    s[..i] + s[i + 1..]
  }

  /** getValue. */
  function Get(doc: Json, path: seq<string>): Outcome {
    if path == [] then Ok(doc) else
    match doc
    case Obj(fields) => if path[0] !in fields then Err(KeyNotFound) else Get(fields[path[0]], path[1..])
    case Arr(items) =>
      (match P.Atoi(path[0])
       case None => Err(BadIndex)
       case Some(i) => if i < 0 || i >= |items| then Err(OutOfRange) else Get(items[i], path[1..]))
    case _ => Err(NotContainer)
  }

  /** addValue. At an array, a token that is no number but "-" appends, whatever of the path is left. */
  function Add(doc: Json, path: seq<string>, v: Json): Outcome {
    if path == [] then Ok(v) else
    match doc
    case Obj(fields) =>
      if |path| == 1 then Ok(Obj(fields[path[0] := v]))
      else if path[0] !in fields then Err(KeyNotFound)
      else
        var r := Add(fields[path[0]], path[1..], v);
        if r.Err? then r else Ok(Obj(fields[path[0] := r.value]))
    case Arr(items) =>
      (match P.Atoi(path[0])
       case None => if path[0] == "-" then Ok(Arr(items + [v])) else Err(BadIndex)
       case Some(i) =>
         if |path| == 1 then
           if i > |items| then Err(OutOfRange) else if i < 0 then Err(Panic) else Ok(Arr(Insert(items, i, v)))
         else if i < 0 || i >= |items| then Err(OutOfRange)
         else
           var r := Add(items[i], path[1..], v);
           if r.Err? then r else Ok(Arr(items[i := r.value])))
    case _ => Err(NotContainer)
  }

  /** removeValue. */
  function Remove(doc: Json, path: seq<string>): Outcome {
    if path == [] then Err(RootRemoved) else
    match doc
    case Obj(fields) =>
      if path[0] !in fields then Err(KeyNotFound)
      else if |path| == 1 then Ok(Obj(fields - {path[0]}))
      else
        var r := Remove(fields[path[0]], path[1..]);
        if r.Err? then r else Ok(Obj(fields[path[0] := r.value]))
    case Arr(items) =>
      (match P.Atoi(path[0])
       case None => Err(BadIndex)
       case Some(i) =>
         if i < 0 || i >= |items| then Err(OutOfRange)
         else if |path| == 1 then Ok(Arr(Cut(items, i)))
         else
           var r := Remove(items[i], path[1..]);
           if r.Err? then r else Ok(Arr(items[i := r.value])))
    case _ => Err(NotContainer)
  }

  // What an add does: append, overwrite, or neither.

  /** The add reaches an array with "-". */
  predicate Appends(doc: Json, path: seq<string>) {
    path != [] &&
    match doc
    case Obj(fields) => |path| > 1 && path[0] in fields && Appends(fields[path[0]], path[1..])
    case Arr(items) =>
      (match P.Atoi(path[0])
       case None => path[0] == "-"
       case Some(i) => |path| > 1 && 0 <= i < |items| && Appends(items[i], path[1..]))
    case _ => false
  }

  /** The add replaces the root or the value of an object key that is there. */
  predicate Overwrites(doc: Json, path: seq<string>) {
    path == [] ||
    match doc
    case Obj(fields) => path[0] in fields && (|path| == 1 || Overwrites(fields[path[0]], path[1..]))
    case Arr(items) =>
      (match P.Atoi(path[0])
       case None => false
       case Some(i) => |path| > 1 && 0 <= i < |items| && Overwrites(items[i], path[1..]))
    case _ => false
  }

  /** Where the added value ends up: the path itself, with "-" replaced by the index appended at. */
  function Landing(doc: Json, path: seq<string>): seq<string> {
    if path == [] then [] else
    match doc
    case Obj(fields) =>
      if |path| > 1 && path[0] in fields then [path[0]] + Landing(fields[path[0]], path[1..]) else path
    case Arr(items) =>
      (match P.Atoi(path[0])
       case None => [Digits(|items|)]
       case Some(i) => if |path| > 1 && 0 <= i < |items| then [path[0]] + Landing(items[i], path[1..]) else path)
    case _ => path
  }

  /** Arrays as Go can hold them. */
  predicate Sized(doc: Json)
    decreases doc
  {
    match doc
    case Obj(fields) => forall k | k in fields :: Sized(fields[k])
    case Arr(items) => |items| < MAX63 && forall x | x in items :: Sized(x)
    case _ => true
  }

  lemma {:induction false} LandingWithoutAppend(doc: Json, path: seq<string>, v: Json)
    requires !Appends(doc, path) && Add(doc, path, v).Ok?
    ensures Landing(doc, path) == path
  {
    hide P.Atoi, Digits;
    if |path| > 1 {
      match doc {
        case Obj(fields) => LandingWithoutAppend(fields[path[0]], path[1..], v);
        case Arr(items) => LandingWithoutAppend(items[P.Atoi(path[0]).value], path[1..], v);
        case _ =>
      }
      assert path == [path[0]] + path[1..];
    }
  }

  /** Get after Add returns the value, at the place the add put it. */
  lemma {:induction false} GetAfterAddLanding(doc: Json, path: seq<string>, v: Json)
    requires Sized(doc) && Add(doc, path, v).Ok?
    ensures Get(Add(doc, path, v).value, Landing(doc, path)) == Ok(v)
    decreases doc, path, 1
  {
    hide P.Atoi, Digits;
    if path != [] {
      match doc {
        case Obj(fields) =>
          if |path| > 1 {
            GetAfterAddLanding(fields[path[0]], path[1..], v);
          }
        case Arr(items) => GetAfterAddInArray(items, path, v);
        case _ =>
      }
    }
  }

  lemma {:induction false} GetAfterAddInArray(items: seq<Json>, path: seq<string>, v: Json)
    requires path != [] && Sized(Arr(items)) && Add(Arr(items), path, v).Ok?
    ensures Get(Add(Arr(items), path, v).value, Landing(Arr(items), path)) == Ok(v)
    decreases Arr(items), path, 0
  {
    hide P.Atoi, Digits;
    if P.Atoi(path[0]).None? {
      P.AtoiOfDigits(|items|);
    } else if |path| > 1 {
      assert items[P.Atoi(path[0]).value] in items;
      GetAfterAddLanding(items[P.Atoi(path[0]).value], path[1..], v);
    }
  }

  lemma {:induction false} AppendIsNotFoundAgain(doc: Json, path: seq<string>, v: Json)
    requires Appends(doc, path) && Add(doc, path, v).Ok?
    ensures Get(Add(doc, path, v).value, path).Err?
  {
    match doc {
      case Obj(fields) => AppendIsNotFoundAgain(fields[path[0]], path[1..], v);
      case Arr(items) =>
        if P.Atoi(path[0]).Some? {
          AppendIsNotFoundAgain(items[P.Atoi(path[0]).value], path[1..], v);
        }
    }
  }

  /** Get after Add under the very same path returns the value exactly when the add did not append. */
  lemma {:induction false} GetAfterAdd(doc: Json, path: seq<string>, v: Json)
    requires Sized(doc) && Add(doc, path, v).Ok?
    ensures Get(Add(doc, path, v).value, path) == Ok(v) <==> !Appends(doc, path)
  {
    if Appends(doc, path) {
      AppendIsNotFoundAgain(doc, path, v);
    } else {
      GetAfterAddLanding(doc, path, v);
      LandingWithoutAppend(doc, path, v);
    }
  }

  /** Removing what was added restores the document exactly when the add overwrote nothing. */
  lemma {:induction false} RemoveAfterAdd(doc: Json, path: seq<string>, v: Json)
    requires Sized(doc) && Add(doc, path, v).Ok?
    ensures Remove(Add(doc, path, v).value, Landing(doc, path)) == Ok(doc) <==> !Overwrites(doc, path)
    decreases |path|, 1
  {
    if path != [] {
      match doc {
        case Obj(fields) => RemoveFromObject(fields, path, v);
        case Arr(items) => RemoveFromArray(items, path, v);
        case _ =>
      }
    }
  }

  lemma {:induction false} RemoveFromObject(fields: map<string, Json>, path: seq<string>, v: Json)
    requires path != [] && Sized(Obj(fields)) && Add(Obj(fields), path, v).Ok?
    ensures Remove(Add(Obj(fields), path, v).value, Landing(Obj(fields), path)) == Ok(Obj(fields)) <==> !Overwrites(Obj(fields), path)
    decreases |path|, 0
  {
    var k := path[0];
    if |path| == 1 {
      if k !in fields {
        assert fields[k := v] - {k} == fields;
      } else {
        assert k !in fields[k := v] - {k};
      }
    } else {
      RemoveAfterAdd(fields[k], path[1..], v);
      var child := Add(fields[k], path[1..], v).value;
      var landing := Landing(fields[k], path[1..]);
      LandingNonEmpty(fields[k], path[1..]);
      assert ([k] + landing)[1..] == landing;
      var r := Remove(child, landing);
      if r.Ok? {
        assert fields[k := child][k := r.value] == fields[k := r.value];
        assert r.value == fields[k] ==> fields[k := r.value] == fields;
        assert fields[k := r.value] == fields ==> r.value == fields[k];
      }
    }
  }

  lemma {:induction false} RemoveFromArray(items: seq<Json>, path: seq<string>, v: Json)
    requires path != [] && Sized(Arr(items)) && Add(Arr(items), path, v).Ok?
    ensures Remove(Add(Arr(items), path, v).value, Landing(Arr(items), path)) == Ok(Arr(items)) <==> !Overwrites(Arr(items), path)
    decreases |path|, 0
  {
    hide P.Atoi, Digits, Sized;
    match P.Atoi(path[0]) {
      case None =>
        SizedItems(items);
        P.AtoiOfDigits(|items|);
        assert Cut(items + [v], |items|) == items;
      case Some(i) =>
        if |path| == 1 {
          assert Cut(Insert(items, i, v), i) == items;
        } else {
          SizedItems(items);
          assert items[i] in items;
          RemoveAfterAdd(items[i], path[1..], v);
          RemoveFromElement(items, i, path, v);
        }
    }
  }

  lemma SizedItems(items: seq<Json>)
    requires Sized(Arr(items))
    ensures |items| < MAX63 && forall x | x in items :: Sized(x)
  {
  }

  lemma RemoveFromElement(items: seq<Json>, i: nat, path: seq<string>, v: Json)
    requires |path| > 1 && P.Atoi(path[0]) == Some(i) && i < |items| && Add(items[i], path[1..], v).Ok?
    ensures Remove(Add(Arr(items), path, v).value, Landing(Arr(items), path)) == Ok(Arr(items)) <==>
            Remove(Add(items[i], path[1..], v).value, Landing(items[i], path[1..])) == Ok(items[i])
  {
    hide P.Atoi, Digits;
    var child, landing := Add(items[i], path[1..], v).value, Landing(items[i], path[1..]);
    LandingNonEmpty(items[i], path[1..]);
    assert ([path[0]] + landing)[1..] == landing;
    var r := Remove(child, landing);
    if r.Ok? {
      assert items[i := child][i := r.value] == items[i := r.value];
      SameAt(items, i, r.value);
    }
  }

  lemma SameAt(items: seq<Json>, i: nat, x: Json)
    requires i < |items|
    ensures items[i := x] == items <==> x == items[i]
  {
    assert items[i := x][i] == x;
  }

  lemma LandingNonEmpty(doc: Json, path: seq<string>)
    requires path != []
    ensures Landing(doc, path) != []
  {
  }

  /** Remove succeeds exactly where Get does, except at the root; and adding back what was there undoes it. */
  lemma {:induction false} AddAfterRemove(doc: Json, path: seq<string>)
    ensures Remove(doc, path).Ok? <==> path != [] && Get(doc, path).Ok?
    ensures Remove(doc, path).Ok? ==> Add(Remove(doc, path).value, path, Get(doc, path).value) == Ok(doc)
    decreases |path|, 1
  {
    if path != [] {
      match doc {
        case Obj(fields) =>
          var k := path[0];
          if k in fields {
            if |path| == 1 {
              assert path[1..] == [] && (fields - {k})[k := fields[k]] == fields;
            } else {
              AddAfterRemove(fields[k], path[1..]);
              var r := Remove(fields[k], path[1..]);
              if r.Ok? {
                assert fields[k := r.value][k := fields[k]] == fields;
              }
            }
          }
        case Arr(items) => AddAfterRemoveInArray(items, path);
        case _ =>
      }
    }
  }

  lemma {:induction false} AddAfterRemoveInArray(items: seq<Json>, path: seq<string>)
    requires path != []
    ensures Remove(Arr(items), path).Ok? <==> Get(Arr(items), path).Ok?
    ensures Remove(Arr(items), path).Ok? ==> Add(Remove(Arr(items), path).value, path, Get(Arr(items), path).value) == Ok(Arr(items))
    decreases |path|, 0
  {
    hide P.Atoi;
    var i := P.Atoi(path[0]);
    if i.Some? && 0 <= i.value < |items| {
      if |path| == 1 {
        assert path[1..] == [] && Insert(Cut(items, i.value), i.value, items[i.value]) == items;
      } else {
        AddAfterRemove(items[i.value], path[1..]);
        var r := Remove(items[i.value], path[1..]);
        if r.Ok? {
          assert items[i.value := r.value][i.value := items[i.value]] == items;
        }
      }
    }
  }

  // Replace.

  /** The document with the value at an existing path exchanged. */
  function Put(doc: Json, path: seq<string>, v: Json): Json
    requires Get(doc, path).Ok?
  {
    if path == [] then v else
    match doc
    case Obj(fields) => Obj(fields[path[0] := Put(fields[path[0]], path[1..], v)])
    case Arr(items) =>
      var i := P.Atoi(path[0]).value;
      Arr(items[i := Put(items[i], path[1..], v)])
  }

  function Replace(doc: Json, path: seq<string>, v: Json): Outcome {
    var r := Remove(doc, path);
    if r.Err? then r else Add(r.value, path, v)
  }

  /** Removing and adding again exchanges the value in place, and fails only where the path is missing
      or is the root. */
  lemma {:induction false} ReplaceIsPut(doc: Json, path: seq<string>, v: Json)
    ensures Replace(doc, path, v).Ok? <==> path != [] && Get(doc, path).Ok?
    ensures Replace(doc, path, v).Ok? ==> Replace(doc, path, v) == Ok(Put(doc, path, v))
    decreases |path|, 1
  {
    AddAfterRemove(doc, path);
    if |path| == 1 && Get(doc, path).Ok? {
      ReplaceLast(doc, path, v);
    } else if |path| > 1 && Get(doc, path).Ok? {
      match doc {
        case Obj(fields) =>
          ReplaceIsPut(fields[path[0]], path[1..], v);
          var r, x := Remove(fields[path[0]], path[1..]).value, Put(fields[path[0]], path[1..], v);
          assert fields[path[0] := r][path[0] := x] == fields[path[0] := x];
        case Arr(items) =>
          ReplaceElement(items, path, v);
      }
    }
  }

  lemma {:induction false} ReplaceElement(items: seq<Json>, path: seq<string>, v: Json)
    requires |path| > 1 && Get(Arr(items), path).Ok?
    ensures Replace(Arr(items), path, v) == Ok(Put(Arr(items), path, v))
    decreases |path|, 0
  {
    var i := P.Atoi(path[0]).value;
    ReplaceIsPut(items[i], path[1..], v);
    var r, x := Remove(items[i], path[1..]).value, Put(items[i], path[1..], v);
    assert items[i := r][i := x] == items[i := x];
  }

  lemma ReplaceLast(doc: Json, path: seq<string>, v: Json)
    requires |path| == 1 && Get(doc, path).Ok?
    ensures Replace(doc, path, v) == Ok(Put(doc, path, v))
  {
    hide P.Atoi, Digits;
    assert path[1..] == [];
    match doc {
      case Obj(fields) => assert (fields - {path[0]})[path[0] := v] == fields[path[0] := v];
      case Arr(items) =>
        var i := P.Atoi(path[0]).value;
        assert Insert(Cut(items, i), i, v) == items[i := v];
    }
  }

  /** Two existing paths lead to different places, neither inside the other. Array tokens are compared
      as numbers: "1" and "01" are the same place. */
  predicate Diverge(doc: Json, p: seq<string>, q: seq<string>)
    requires Get(doc, p).Ok? && Get(doc, q).Ok?
  {
    p != [] && q != [] &&
    match doc
    case Obj(fields) => p[0] != q[0] || Diverge(fields[p[0]], p[1..], q[1..])
    case Arr(items) =>
      P.Atoi(p[0]) != P.Atoi(q[0]) || Diverge(items[P.Atoi(p[0]).value], p[1..], q[1..])
  }

  lemma {:induction false} PutLeavesOther(doc: Json, p: seq<string>, v: Json, q: seq<string>)
    requires Get(doc, p).Ok? && Get(doc, q).Ok? && Diverge(doc, p, q)
    ensures Get(Put(doc, p, v), q) == Get(doc, q)
  {
    match doc {
      case Obj(fields) =>
        if p[0] == q[0] {
          PutLeavesOther(fields[p[0]], p[1..], v, q[1..]);
        }
      case Arr(items) =>
        if P.Atoi(p[0]) == P.Atoi(q[0]) {
          PutLeavesOther(items[P.Atoi(p[0]).value], p[1..], v, q[1..]);
        }
    }
  }

  lemma PutTwiceInArray(items: seq<Json>, p: seq<string>, v: Json, q: seq<string>, w: Json)
    requires Get(Arr(items), p).Ok? && p != [] && q != []
    requires Get(Put(Arr(items), p, v), q).Ok?
    ensures var i, j := P.Atoi(p[0]).value, P.Atoi(q[0]).value;
            && 0 <= i < |items| && 0 <= j < |items| && Get(items[i], p[1..]).Ok?
            && var x := Put(items[i], p[1..], v);
            && Get(items[i := x][j], q[1..]).Ok?
            && Put(Put(Arr(items), p, v), q, w) == Arr(items[i := x][j := Put(items[i := x][j], q[1..], w)])
  {
  }

  lemma PutTwiceInObject(fields: map<string, Json>, p: seq<string>, v: Json, q: seq<string>, w: Json)
    requires Get(Obj(fields), p).Ok? && p != [] && q != []
    requires Get(Put(Obj(fields), p, v), q).Ok?
    ensures var i, j := p[0], q[0];
            && i in fields && j in fields && Get(fields[i], p[1..]).Ok?
            && var x := Put(fields[i], p[1..], v);
            && Get(fields[i := x][j], q[1..]).Ok?
            && Put(Put(Obj(fields), p, v), q, w) == Obj(fields[i := x][j := Put(fields[i := x][j], q[1..], w)])
  {
  }

  lemma {:induction false} PutsCommute(doc: Json, p: seq<string>, v: Json, q: seq<string>, w: Json)
    requires Get(doc, p).Ok? && Get(doc, q).Ok? && Diverge(doc, p, q)
    requires Get(Put(doc, p, v), q).Ok? && Get(Put(doc, q, w), p).Ok?
    ensures Put(Put(doc, p, v), q, w) == Put(Put(doc, q, w), p, v)
    decreases |p|, 1
  {
    if doc.Obj? {
      FieldPutsCommute(doc.fields, p, v, q, w);
    } else {
      ElementPutsCommute(doc.items, p, v, q, w);
    }
  }

  lemma {:induction false} FieldPutsCommute(fields: map<string, Json>, p: seq<string>, v: Json, q: seq<string>, w: Json)
    requires Get(Obj(fields), p).Ok? && Get(Obj(fields), q).Ok? && Diverge(Obj(fields), p, q)
    requires Get(Put(Obj(fields), p, v), q).Ok? && Get(Put(Obj(fields), q, w), p).Ok?
    ensures Put(Put(Obj(fields), p, v), q, w) == Put(Put(Obj(fields), q, w), p, v)
    decreases |p|, 0
  {
    PutTwiceInObject(fields, p, v, q, w);
    PutTwiceInObject(fields, q, w, p, v);
    var x, y := Put(fields[p[0]], p[1..], v), Put(fields[q[0]], q[1..], w);
    if p[0] == q[0] {
      PutsCommute(fields[p[0]], p[1..], v, q[1..], w);
      var z := Put(x, q[1..], w);
      assert fields[p[0] := x][p[0] := z] == fields[p[0] := y][p[0] := z];
    } else {
      assert fields[p[0] := x][q[0] := y] == fields[q[0] := y][p[0] := x];
    }
  }

  lemma {:induction false} ElementPutsCommute(items: seq<Json>, p: seq<string>, v: Json, q: seq<string>, w: Json)
    requires Get(Arr(items), p).Ok? && Get(Arr(items), q).Ok? && Diverge(Arr(items), p, q)
    requires Get(Put(Arr(items), p, v), q).Ok? && Get(Put(Arr(items), q, w), p).Ok?
    ensures Put(Put(Arr(items), p, v), q, w) == Put(Put(Arr(items), q, w), p, v)
    decreases |p|, 0
  {
    PutTwiceInArray(items, p, v, q, w);
    PutTwiceInArray(items, q, w, p, v);
    var i, j := P.Atoi(p[0]).value, P.Atoi(q[0]).value;
    var x, y := Put(items[i], p[1..], v), Put(items[j], q[1..], w);
    if i == j {
      PutsCommute(items[i], p[1..], v, q[1..], w);
      var z := Put(x, q[1..], w);
      assert items[i := x][i := z] == items[i := y][i := z];
    } else {
      assert items[i := x][j := y] == items[j := y][i := x];
    }
  }

  lemma {:induction false} DivergeSymmetric(doc: Json, p: seq<string>, q: seq<string>)
    requires Get(doc, p).Ok? && Get(doc, q).Ok? && Diverge(doc, p, q)
    ensures Diverge(doc, q, p)
  {
    match doc {
      case Obj(fields) =>
        if p[0] == q[0] {
          DivergeSymmetric(fields[p[0]], p[1..], q[1..]);
        }
      case Arr(items) =>
        if P.Atoi(p[0]) == P.Atoi(q[0]) {
          DivergeSymmetric(items[P.Atoi(p[0]).value], p[1..], q[1..]);
        }
    }
  }

  // Operations and patches.

  datatype Op = OpAdd | OpRemove | OpReplace | OpMove | OpCopy | OpTest | OpOther(name: string)

  /** The value is what its JSON text decodes to; None when the field is absent. */
  datatype Operation = Operation(op: Op, path: string, value: Option<Json>, from: string)

  predicate WellFormed(o: Operation) {
    match o.op
    case OpAdd => o.path != "" && o.value.Some?
    case OpReplace => o.path != "" && o.value.Some?
    case OpTest => o.path != "" && o.value.Some?
    case OpRemove => o.path != ""
    case OpMove => o.path != "" && o.from != ""
    case OpCopy => o.path != "" && o.from != ""
    case OpOther(_) => false
  }

  function Move(doc: Json, from: seq<string>, path: seq<string>): Outcome {
    var found := Get(doc, from);
    if found.Err? then found else
    var r := Remove(doc, from);
    if r.Err? then r else Add(r.value, path, found.value)
  }

  /** applyOp. Values are compared where the source compares their canonical JSON text. */
  function ApplyOp(doc: Json, o: Operation): Outcome {
    var path, from := P.Parse(o.path), P.Parse(o.from);
    var value := if o.value.Some? then o.value.value else Null;
    match o.op
    case OpAdd => Add(doc, path, value)
    case OpRemove => Remove(doc, path)
    case OpReplace => Replace(doc, path, value)
    case OpMove => Move(doc, from, path)
    case OpCopy =>
      var found := Get(doc, from);
      if found.Err? then found else Add(doc, path, found.value)
    case OpTest =>
      var found := Get(doc, path);
      if found.Err? then found else if found.value == value then Ok(doc) else Err(TestFailed)
    case OpOther(_) => Err(UnknownOp)
  }

  function ApplyAll(doc: Json, patch: seq<Operation>): Outcome
    decreases |patch|
  {
    if patch == [] then Ok(doc) else
    var r := ApplyOp(doc, patch[0]);
    if r.Err? then r else ApplyAll(r.value, patch[1..])
  }

  /** Apply: the whole patch is validated first. */
  function Applied(doc: Json, patch: seq<Operation>): Outcome {
    if forall o | o in patch :: WellFormed(o) then ApplyAll(doc, patch) else Err(Malformed)
  }

  /** It stops at the first failing operation. */
  method Apply(doc: Json, patch: seq<Operation>) returns (r: Outcome)
    ensures r == Applied(doc, patch)
  {
    for i := 0 to |patch|
      invariant forall j | 0 <= j < i :: WellFormed(patch[j])
    {
      if !WellFormed(patch[i]) {
        return Err(Malformed);
      }
    }
    var target := doc;
    for i := 0 to |patch|
      invariant ApplyAll(target, patch[i..]) == ApplyAll(doc, patch)
    {
      assert patch[i..][1..] == patch[i + 1..];
      var step := ApplyOp(target, patch[i]);
      if step.Err? {
        return step;
      }
      target := step.value;
    }
    return Ok(target);
  }

  // The operations on pointer texts.

  function AddOp(path: seq<string>, v: Json): Operation {
    Operation(OpAdd, P.Format(path), Some(v), "")
  }

  function RemoveOp(path: seq<string>): Operation {
    Operation(OpRemove, P.Format(path), None, "")
  }

  function CopyOp(from: seq<string>, path: seq<string>): Operation {
    Operation(OpCopy, P.Format(path), None, P.Format(from))
  }

  function TestOp(path: seq<string>, v: Json): Operation {
    Operation(OpTest, P.Format(path), Some(v), "")
  }

  function ReplaceOp(path: seq<string>, v: Json): Operation {
    Operation(OpReplace, P.Format(path), Some(v), "")
  }

  function MoveOp(from: seq<string>, path: seq<string>): Operation {
    Operation(OpMove, P.Format(path), None, P.Format(from))
  }

  /** Pairs of operations, as a patch of two. */
  lemma TwoSteps(doc: Json, a: Operation, b: Operation)
    requires ApplyOp(doc, a).Ok?
    ensures ApplyAll(doc, [a, b]) == ApplyOp(ApplyOp(doc, a).value, b)
  {
    assert [a, b][1..] == [b] && [b][1..] == [];
    var r := ApplyOp(ApplyOp(doc, a).value, b);
    assert ApplyAll(ApplyOp(doc, a).value, [b]) == if r.Err? then r else ApplyAll(r.value, []);
  }

  /** Replaces on diverging existing paths commute: both patches succeed with the same document. */
  lemma ReplacesCommute(doc: Json, p: seq<string>, v: Json, q: seq<string>, w: Json)
    requires Get(doc, p).Ok? && Get(doc, q).Ok? && Diverge(doc, p, q) && p != [""] && q != [""]
    ensures ApplyAll(doc, [ReplaceOp(p, v), ReplaceOp(q, w)]) == ApplyAll(doc, [ReplaceOp(q, w), ReplaceOp(p, v)])
    ensures ApplyAll(doc, [ReplaceOp(p, v), ReplaceOp(q, w)]).Ok?
  {
    P.ParseFormat(p);
    P.ParseFormat(q);
    ReplaceIsPut(doc, p, v);
    ReplaceIsPut(doc, q, w);
    DivergeSymmetric(doc, p, q);
    PutLeavesOther(doc, p, v, q);
    PutLeavesOther(doc, q, w, p);
    PutsCommute(doc, p, v, q, w);
    ReplaceIsPut(Put(doc, p, v), q, w);
    ReplaceIsPut(Put(doc, q, w), p, v);
    TwoSteps(doc, ReplaceOp(p, v), ReplaceOp(q, w));
    TwoSteps(doc, ReplaceOp(q, w), ReplaceOp(p, v));
  }

  lemma {:induction false} RemoveKeepsSized(doc: Json, path: seq<string>)
    requires Sized(doc) && Remove(doc, path).Ok?
    ensures Sized(Remove(doc, path).value)
  {
    match doc {
      case Obj(fields) =>
        if |path| > 1 {
          RemoveKeepsSized(fields[path[0]], path[1..]);
        }
      case Arr(items) =>
        var i := P.Atoi(path[0]).value;
        if |path| > 1 {
          assert items[i] in items;
          RemoveKeepsSized(items[i], path[1..]);
          var r := Remove(items[i], path[1..]).value;
          assert forall x | x in items[i := r] :: x == r || x in items;
        } else {
          assert forall x | x in Cut(items, i) :: x in items;
        }
    }
  }

  // A move that overwrites cannot be undone by its reverse: what was there is lost.

  /** a is b with some object entries missing, at any depth. */
  predicate Thinner(a: Json, b: Json)
    decreases a
  {
    if a.Obj? && b.Obj? then forall k | k in a.fields :: k in b.fields && Thinner(a.fields[k], b.fields[k])
    else if a.Arr? && b.Arr? then |a.items| == |b.items| && forall i | 0 <= i < |a.items| :: Thinner(a.items[i], b.items[i])
    else a == b
  }

  lemma {:induction false} ThinnerSelf(a: Json)
    ensures Thinner(a, a)
    decreases a
  {
    match a {
      case Obj(fields) =>
        forall k | k in fields ensures Thinner(fields[k], fields[k]) {
          ThinnerSelf(fields[k]);
        }
      case Arr(items) =>
        forall i | 0 <= i < |items| ensures Thinner(items[i], items[i]) {
          ThinnerSelf(items[i]);
        }
      case _ =>
    }
  }

  lemma {:induction false} ThinnerBothWays(a: Json, b: Json)
    requires Thinner(a, b) && Thinner(b, a)
    ensures a == b
    decreases a
  {
    if a.Obj? && b.Obj? {
      forall k | k in a.fields ensures k in b.fields && a.fields[k] == b.fields[k] {
        ThinnerBothWays(a.fields[k], b.fields[k]);
      }
      assert a.fields == b.fields;
    } else if a.Arr? && b.Arr? {
      forall i | 0 <= i < |a.items| ensures a.items[i] == b.items[i] {
        ThinnerBothWays(a.items[i], b.items[i]);
      }
      assert a.items == b.items;
    }
  }

  /** Adding over an entry and removing it again only removes the entry. */
  lemma {:induction false} OverwrittenIsGone(doc: Json, path: seq<string>, v: Json)
    requires path != [] && Overwrites(doc, path) && Add(doc, path, v).Ok?
    ensures Landing(doc, path) == path && Remove(doc, path).Ok?
    ensures Remove(Add(doc, path, v).value, path) == Remove(doc, path)
    ensures Thinner(Remove(doc, path).value, doc)
    decreases |path|, 1
  {
    hide P.Atoi, Digits;
    match doc {
      case Obj(fields) => OverwrittenField(fields, path, v);
      case Arr(items) => OverwrittenElement(items, path, v);
    }
  }

  lemma {:induction false} OverwrittenField(fields: map<string, Json>, path: seq<string>, v: Json)
    requires path != [] && Overwrites(Obj(fields), path) && Add(Obj(fields), path, v).Ok?
    ensures Landing(Obj(fields), path) == path && Remove(Obj(fields), path).Ok?
    ensures Remove(Add(Obj(fields), path, v).value, path) == Remove(Obj(fields), path)
    ensures Thinner(Remove(Obj(fields), path).value, Obj(fields))
    decreases |path|, 0
  {
    hide P.Atoi, Digits;
    var k := path[0];
    if |path| == 1 {
      assert fields[k := v] - {k} == fields - {k};
      ThinnerFields(fields - {k}, fields);
    } else {
      OverwrittenIsGone(fields[k], path[1..], v);
      var x, y := Add(fields[k], path[1..], v).value, Remove(fields[k], path[1..]).value;
      assert fields[k := x][k := y] == fields[k := y];
      assert path == [k] + path[1..];
      forall j | j in fields ensures Thinner(fields[k := y][j], fields[j]) {
        ThinnerSelf(fields[j]);
      }
    }
  }

  lemma ThinnerFields(a: map<string, Json>, b: map<string, Json>)
    requires forall k | k in a :: k in b && a[k] == b[k]
    ensures Thinner(Obj(a), Obj(b))
  {
    forall k | k in a ensures Thinner(a[k], b[k]) {
      ThinnerSelf(a[k]);
    }
  }

  lemma {:induction false} OverwrittenElement(items: seq<Json>, path: seq<string>, v: Json)
    requires path != [] && Overwrites(Arr(items), path) && Add(Arr(items), path, v).Ok?
    ensures Landing(Arr(items), path) == path && Remove(Arr(items), path).Ok?
    ensures Remove(Add(Arr(items), path, v).value, path) == Remove(Arr(items), path)
    ensures Thinner(Remove(Arr(items), path).value, Arr(items))
    decreases |path|, 0
  {
    hide P.Atoi, Digits;
    var i := P.Atoi(path[0]).value;
    OverwrittenIsGone(items[i], path[1..], v);
    var x, y := Add(items[i], path[1..], v).value, Remove(items[i], path[1..]).value;
    assert items[i := x][i := y] == items[i := y];
    assert path == [path[0]] + path[1..];
    forall j | 0 <= j < |items| ensures Thinner(items[i := y][j], items[j]) {
      ThinnerSelf(items[j]);
    }
  }

  /** If adding v at `from` to a thinned document gives what adding it to the whole one gives, nothing was thinned. */
  lemma NothingRemoved(doc: Json, from: seq<string>, thin: Json)
    requires Sized(thin) && Get(doc, from).Ok? && Remove(doc, from).Ok? && Thinner(thin, Remove(doc, from).value)
    requires Add(thin, from, Get(doc, from).value) == Ok(doc)
    ensures thin == Remove(doc, from).value
  {
    var v := Get(doc, from).value;
    if Appends(thin, from) {
      AppendIsNotFoundAgain(thin, from, v);
    }
    LandingWithoutAppend(thin, from, v);
    RemoveAfterAdd(thin, from, v);
    if Overwrites(thin, from) {
      OverwrittenIsGone(thin, from, v);
      ThinnerBothWays(thin, Remove(doc, from).value);
    }
  }

  lemma OverwritingIsFinal(doc: Json, from: seq<string>, path: seq<string>)
    requires Sized(doc) && Move(doc, from, path).Ok? && Overwrites(Remove(doc, from).value, path)
    ensures Move(Move(doc, from, path).value, Landing(Remove(doc, from).value, path), from) != Ok(doc)
  {
    var v, rest := Get(doc, from).value, Remove(doc, from).value;
    if path != [] {
      RemoveKeepsSized(doc, from);
      GetAfterAddLanding(rest, path, v);
      OverwrittenIsGone(rest, path, v);
      RemoveKeepsSized(rest, path);
      RemoveAfterAdd(rest, path, v);
      if Add(Remove(rest, path).value, from, v) == Ok(doc) {
        NothingRemoved(doc, from, Remove(rest, path).value);
      }
    }
  }

  /** A move followed by its reverse restores the document if and only if it overwrote nothing. */
  lemma MoveAndBack(doc: Json, from: seq<string>, path: seq<string>)
    requires Sized(doc) && Move(doc, from, path).Ok?
    ensures Move(Move(doc, from, path).value, Landing(Remove(doc, from).value, path), from) == Ok(doc) <==>
            !Overwrites(Remove(doc, from).value, path)
  {
    var v, rest := Get(doc, from).value, Remove(doc, from).value;
    if Overwrites(rest, path) {
      OverwritingIsFinal(doc, from, path);
    } else {
      RemoveKeepsSized(doc, from);
      GetAfterAddLanding(rest, path, v);
      RemoveAfterAdd(rest, path, v);
      AddAfterRemove(doc, from);
    }
  }

  /** The same as a patch of two moves: the path must also name its own landing place. */
  lemma MoveOpAndBack(doc: Json, from: seq<string>, path: seq<string>)
    requires Sized(doc) && Move(doc, from, path).Ok? && from != [""] && path != [""]
    ensures ApplyAll(doc, [MoveOp(from, path), MoveOp(path, from)]) == Ok(doc) <==>
            !Overwrites(Remove(doc, from).value, path) && !Appends(Remove(doc, from).value, path)
  {
    var v, rest := Get(doc, from).value, Remove(doc, from).value;
    P.ParseFormat(from);
    P.ParseFormat(path);
    TwoSteps(doc, MoveOp(from, path), MoveOp(path, from));
    if Appends(rest, path) {
      AppendIsNotFoundAgain(rest, path, v);
    } else {
      LandingWithoutAppend(rest, path, v);
      MoveAndBack(doc, from, path);
    }
  }
}
