/** What the decoder of packages/golib/cbor/cbor.go refuses, and the byte order and codes of the format: on the
    functions of module Cbor. */
module CborErrors {
  import opened Cbor
  import opened GoInts
  import opened Wrappers

  lemma {:induction false} FrontAndRest(b: byte, rest: seq<byte>)
    ensures FromBigEndian([b] + rest) == b * Pow256(|rest|) + FromBigEndian(rest)
  {
    var s := [b] + rest;
    if rest == [] {
      assert s[..0] == [];
    } else {
      var front := rest[..|rest| - 1];
      assert s[..|s| - 1] == [b] + front;
      FrontAndRest(b, front);
      assert b * Pow256(|rest|) == b * Pow256(|front|) * 256;
    }
  }

  /** The argument of a head stands most significant byte first: cutting off its first byte subtracts what
      that byte is worth. */
  lemma MostSignificantFirst(v: nat, n: nat)
    requires n > 0 && v < Pow256(n)
    ensures BigEndian(v, n)[0] * Pow256(n - 1) <= v < (BigEndian(v, n)[0] + 1) * Pow256(n - 1)
  {
    var s := BigEndian(v, n);
    BigEndianRoundTrip(v, n);
    assert s == [s[0]] + s[1..];
    FrontAndRest(s[0], s[1..]);
    FromBigEndianBound(s[1..]);
  }

  /** Some of the examples in appendix A of RFC 8949. */
  lemma RfcExamples()
    ensures Encode(IUint(10)) == [0x0a] && Encode(IUint(1000)) == [0x19, 0x03, 0xe8]
    ensures Encode(IInt(-10)) == [0x29] && Encode(IInt(-1000)) == [0x39, 0x03, 0xe7]
    ensures Encode(IBytes([1, 2, 3, 4])) == [0x44, 1, 2, 3, 4] && Encode(IText([0x61])) == [0x61, 0x61]
    ensures Encode(IArray([])) == [0x80] && Encode(IMap([])) == [0xa0]
    ensures Encode(IBool(true)) == [0xf5] && Encode(IBool(false)) == [0xf4]
  {
    TwoBytes(1000);
    TwoBytes(999);
    assert forall v :: BigEndian(v, 0) == [];
  }

  lemma TwoBytes(v: nat)
    requires v < 0x1_0000
    ensures BigEndian(v, 2) == [v / 256, v % 256]
  {
    assert BigEndian(v, 2) == BigEndian(v / 256, 1) + [v % 256];
    assert BigEndian(v / 256, 1) == BigEndian(v / 256 / 256, 0) + [v / 256 % 256];
    assert BigEndian(v / 256 / 256, 0) == [];
  }

  /** Each Decode call reads exactly the heads of its own major types, and refuses every other as an invalid
      type, leaving the cursor behind the head. */
  lemma TypesAreChecked(m: Major, v: nat, k: Major, before: seq<byte>, after: seq<byte>)
    requires v < MAX64
    ensures var data, pos, next := before + Head(m, v) + after, |before|, |before| + |Head(m, v)|;
            && DecodeUint(data, pos) == Read(next, if m == Uint then Ok(v) else Err(InvalidType))
            && DecodeInt(data, pos) ==
               Read(next, if m == Uint then Ok(ToInt64(v)) else if m == NegInt then Ok(-1 - ToInt64(v)) else Err(InvalidType))
            && DecodeLength(k, data, pos) == Read(next, if m == k then Ok(ToInt64(v)) else Err(InvalidType))
            && (m != k ==> DecodeString(k, data, pos) == Read(next, Err(InvalidType)))
  {
    HeadRoundTrip(m, v, before, after);
  }

  /** A string is read whole or not at all: fewer bytes than announced are an unexpected end, and a length
      that leaves the range of int makes the allocation panic. */
  lemma LengthsAreChecked(m: Major, v: nat, before: seq<byte>, after: seq<byte>)
    requires v < MAX64
    ensures var data, pos, next := before + Head(m, v) + after, |before|, |before| + |Head(m, v)|;
            DecodeString(m, data, pos) ==
            if v >= MAX63 || next + v >= MAX63 then Read(next, Err(Panic))
            else if v > |after| then Read(next, Err(UnexpectedEnd))
            else Read(next + v, Ok(after[..v]))
  {
    var next := |before| + |Head(m, v)|;
    HeadRoundTrip(m, v, before, after);
    if v <= |after| {
      assert (before + Head(m, v) + after)[next..next + v] == after[..v];
    }
  }

  /** DecodeBool reads two byte values and refuses the rest. */
  lemma BoolsAreChecked(b: byte, before: seq<byte>, after: seq<byte>)
    ensures DecodeBool(before + [b] + after, |before|) ==
            Read(|before| + 1, if b == 0xf5 then Ok(true) else if b == 0xf4 then Ok(false) else Err(InvalidType))
  {
    assert (before + [b] + after)[|before|] == b;
  }

  // Input that ends early.

  lemma HeadCut(m: Major, v: nat, before: seq<byte>, n: nat)
    requires v < MAX64 && n < |Head(m, v)|
    ensures ReadHead(before + Head(m, v)[..n], |before|).result == Err(UnexpectedEnd)
  {
    HeadByte(m, Info(v));
    if n > 0 {
      assert (before + Head(m, v)[..n])[|before|] == Head(m, v)[0];
    }
  }

  lemma StringCut(m: Major, s: seq<byte>, before: seq<byte>, n: nat)
    requires |s| < MAX63 && n < |Head(m, |s|) + s| && |before| + |Head(m, |s|) + s| < MAX63
    ensures DecodeString(m, before + (Head(m, |s|) + s)[..n], |before|).result == Err(UnexpectedEnd)
  {
    var head := Head(m, |s|);
    if n < |head| {
      assert (head + s)[..n] == head[..n];
      HeadCut(m, |s|, before, n);
    } else {
      assert before + (head + s)[..n] == before + head + s[..n - |head|];
      HeadRoundTrip(m, |s|, before, s[..n - |head|]);
    }
  }

  lemma ScalarCut(t: Item, before: seq<byte>, n: nat)
    requires Fits(t) && !t.IArray? && !t.IMap? && n < |Encode(t)| && |before| + |Encode(t)| < MAX63
    ensures DecodeAs(ShapeOf(t), before + Encode(t)[..n], |before|).result == Err(UnexpectedEnd)
  {
    match t {
      case IUint(u) => HeadCut(Uint, u, before, n);
      case IInt(i) => HeadCut(if i >= 0 then Uint else NegInt, if i >= 0 then i else -1 - i, before, n);
      case IBytes(s) => StringCut(Bytes, s, before, n);
      case IText(s) => StringCut(Text, s, before, n);
      case IBool(_) =>
    }
  }

  /** An encoding that breaks off anywhere is recognised as such: no proper prefix of it decodes. */
  lemma {:induction false} CutShortFails(t: Item, before: seq<byte>, n: nat)
    requires Fits(t) && n < |Encode(t)| && |before| + |Encode(t)| < MAX63
    ensures DecodeAs(ShapeOf(t), before + Encode(t)[..n], |before|).result == Err(UnexpectedEnd)
    decreases t
  {
    hide Head, DecodeLength, DecodeAs, DecodeAll, EncodeItems, ShapesOf;
    if t.IArray? {
      ContainerCut(Array, |t.items|, t.items, before, n);
      ContainerSteps(ShapesOf(t.items), before + Encode(t)[..n], |before|);
    } else if t.IMap? {
      ContainerCut(Map, |t.entries| / 2, t.entries, before, n);
      ContainerSteps(ShapesOf(t.entries), before + Encode(t)[..n], |before|);
    } else {
      ScalarCut(t, before, n);
    }
  }

  lemma {:induction false} ContainerCut(m: Major, count: nat, items: seq<Item>, before: seq<byte>, n: nat)
    requires count < MAX63 && forall x | x in items :: Fits(x)
    requires n < |Head(m, count) + EncodeItems(items)| && |before| + |Head(m, count) + EncodeItems(items)| < MAX63
    ensures var data := before + (Head(m, count) + EncodeItems(items))[..n];
            || DecodeLength(m, data, |before|).result == Err(UnexpectedEnd)
            || (var r := DecodeLength(m, data, |before|);
                r.result == Ok(count) && DecodeAll(ShapesOf(items), data, r.pos).result == Err(UnexpectedEnd))
    decreases items, 1
  {
    hide Head, ReadHead, EncodeItems, DecodeAll, ShapesOf, Fits;
    var head, rest := Head(m, count), EncodeItems(items);
    if n < |head| {
      assert (head + rest)[..n] == head[..n];
      HeadCut(m, count, before, n);
    } else {
      assert before + (head + rest)[..n] == before + head + rest[..n - |head|];
      HeadRoundTrip(m, count, before, rest[..n - |head|]);
      ItemsCut(items, before + head, n - |head|);
    }
  }

  lemma {:induction false} ItemsCut(items: seq<Item>, before: seq<byte>, n: nat)
    requires forall x | x in items :: Fits(x)
    requires n < |EncodeItems(items)| && |before| + |EncodeItems(items)| < MAX63
    ensures DecodeAll(ShapesOf(items), before + EncodeItems(items)[..n], |before|).result == Err(UnexpectedEnd)
    decreases items, 0
  {
    hide Encode, DecodeAs, DecodeAll, ShapeOf, ShapesOf, Fits;
    var first, rest := Encode(items[0]), EncodeItems(items[1..]);
    var data := before + EncodeItems(items)[..n];
    Cut(before, first, rest, n);
    if n < |first| {
      CutShortFails(items[0], before, n);
      DecodeAllFails(items, data, |before|);
    } else {
      RoundTrip(items[0], before, rest[..n - |first|]);
      ItemsCut(items[1..], before + first, n - |first|);
      DecodeAllStep(items, data, |before|);
    }
  }

  lemma Cut(before: seq<byte>, a: seq<byte>, b: seq<byte>, n: nat)
    requires n <= |a + b|
    ensures n < |a| ==> before + (a + b)[..n] == before + a[..n]
    ensures n >= |a| ==> before + (a + b)[..n] == before + a + b[..n - |a|]
  {
  }

  lemma DecodeAllFails(items: seq<Item>, data: seq<byte>, pos: nat)
    requires items != [] && DecodeAs(ShapeOf(items[0]), data, pos).result.Err?
    ensures DecodeAll(ShapesOf(items), data, pos).result == Err(DecodeAs(ShapeOf(items[0]), data, pos).result.error)
  {
    hide DecodeAs, ShapeOf;
    assert ShapesOf(items)[0] == ShapeOf(items[0]);
  }
}
