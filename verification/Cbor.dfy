/** packages/golib/cbor/cbor.go: the byte format of RFC 8949, with its five head widths.

    Bytes are numbers below 256 and heads are built arithmetically; HeadByteBits shows that on bytes this
    is what the source's or-ing and masking do. */
module Cbor {
  import opened GoInts
  import opened Wrappers

  datatype Major = Uint | NegInt | Bytes | Text | Array | Map | Tag | Simple

  /** The major type's three bits, already shifted into place. */
  function Code(m: Major): (b: byte)
    ensures b % 32 == 0
  {
    match m
    case Uint => 0 case NegInt => 32 case Bytes => 64 case Text => 96
    case Array => 128 case Map => 160 case Tag => 192 case Simple => 224
  }

  function MajorOf(b: byte): (m: Major)
    ensures Code(m) == b / 32 * 32
  {
    [Uint, NegInt, Bytes, Text, Array, Map, Tag, Simple][b / 32]
  }

  lemma HeadByte(m: Major, info: nat)
    requires info < 32
    ensures MajorOf(Code(m) + info) == m && (Code(m) + info) % 32 == info
  {
  }

  const SIMPLE_TRUE: byte := 0xf5
  const SIMPLE_FALSE: byte := 0xf4

  lemma HeadByteBits(major: bv8, info: bv8)
    requires major & 0x1f == 0 && info < 32
    ensures major | info == major + info && (major | info) & 0xe0 == major && (major | info) & 0x1f == info
  {
  }

  /** binary.BigEndian: the n low-order bytes of v, most significant first. */
  function BigEndian(v: nat, n: nat): (s: seq<byte>)
    ensures |s| == n
  {
    if n == 0 then [] else BigEndian(v / 256, n - 1) + [v % 256]
  }

  function FromBigEndian(s: seq<byte>): nat {
    if s == [] then 0 else FromBigEndian(s[..|s| - 1]) * 256 + s[|s| - 1]
  }

  function Pow256(n: nat): nat {
    if n == 0 then 1 else 256 * Pow256(n - 1)
  }

  lemma {:induction false} BigEndianRoundTrip(v: nat, n: nat)
    requires v < Pow256(n)
    ensures FromBigEndian(BigEndian(v, n)) == v
  {
    if n > 0 {
      BigEndianRoundTrip(v / 256, n - 1);
      assert BigEndian(v, n)[..n - 1] == BigEndian(v / 256, n - 1);
    }
  }

  lemma {:induction false} FromBigEndianBound(s: seq<byte>)
    ensures FromBigEndian(s) < Pow256(|s|)
  {
    if s != [] {
      FromBigEndianBound(s[..|s| - 1]);
    }
  }

  /** The low bits of the head byte, and the number of argument bytes they announce. */
  function Info(v: nat): (info: nat)
    requires v < MAX64
    ensures info < 28
  {
    if v < 24 then v else if v < 0x100 then 24 else if v < 0x1_0000 then 25 else if v < 0x1_0000_0000 then 26 else 27
  }

  function Width(info: nat): nat
    requires info < 28
  {
    if info < 24 then 0 else if info == 24 then 1 else if info == 25 then 2 else if info == 26 then 4 else 8
  }

  /** What writeHead appends. */
  function Head(m: Major, v: nat): seq<byte>
    requires v < MAX64
  {
    [Code(m) + Info(v)] + BigEndian(v, Width(Info(v)))
  }

  lemma FitsWidth(v: nat)
    requires 24 <= v < MAX64
    ensures v < Pow256(Width(Info(v)))
  {
    assert Pow256(1) == 0x100 && Pow256(2) == 0x1_0000;
    assert Pow256(3) == 0x100_0000 && Pow256(4) == 0x1_0000_0000;
    assert Pow256(5) == 0x100_0000_0000 && Pow256(6) == 0x1_0000_0000_0000;
    assert Pow256(7) == 0x100_0000_0000_0000 && Pow256(8) == MAX64;
  }

  datatype Error = UnexpectedEnd | InvalidType | Panic

  /** What a decoder call returns, and where it leaves the cursor. */
  datatype Read<+T> = Read(pos: nat, result: Result<T, Error>)

  /** readHead, with the cursor already past the first byte when an argument is cut short. */
  function ReadHead(data: seq<byte>, pos: nat): Read<(Major, nat)> {
    if pos >= |data| then Read(pos, Err(UnexpectedEnd)) else
    var m, info := MajorOf(data[pos]), data[pos] % 32;
    if info < 24 then Read(pos + 1, Ok((m, info)))
    else if info > 27 then Read(pos + 1, Err(InvalidType))
    else
      var width := Width(info);
      if pos + 1 + width > |data| then Read(pos + 1, Err(UnexpectedEnd))
      else Read(pos + 1 + width, Ok((m, FromBigEndian(data[pos + 1..pos + 1 + width]))))
  }

  lemma ReadsArgument(data: seq<byte>, pos: nat, m: Major, info: nat, arg: seq<byte>)
    requires 24 <= info < 28 && |arg| == Width(info)
    requires pos + 1 + |arg| <= |data| && data[pos] == Code(m) + info && data[pos + 1..pos + 1 + |arg|] == arg
    ensures ReadHead(data, pos) == Read(pos + 1 + |arg|, Ok((m, FromBigEndian(arg))))
  {
    HeadByte(m, info);
  }

  /** A head reads back as what was written, wherever it stands and whatever follows. */
  lemma HeadRoundTrip(m: Major, v: nat, before: seq<byte>, after: seq<byte>)
    requires v < MAX64
    ensures ReadHead(before + Head(m, v) + after, |before|) == Read(|before| + |Head(m, v)|, Ok((m, v)))
  {
    var data, arg := before + Head(m, v) + after, BigEndian(v, Width(Info(v)));
    HeadByte(m, Info(v));
    assert data[|before|] == Head(m, v)[0] == Code(m) + Info(v);
    if v >= 24 {
      assert data[|before| + 1..|before| + 1 + |arg|] == arg;
      FitsWidth(v);
      BigEndianRoundTrip(v, Width(Info(v)));
      ReadsArgument(data, |before|, m, Info(v), arg);
    }
  }

  /** No byte string that reads as this head is shorter than the one writeHead emits. */
  lemma HeadIsShortest(data: seq<byte>, m: Major, v: nat)
    requires v < MAX64 && ReadHead(data, 0).result == Ok((m, v))
    ensures |Head(m, v)| <= ReadHead(data, 0).pos
  {
    var info := data[0] % 32;
    if info >= 24 {
      FromBigEndianBound(data[1..1 + Width(info)]);
      assert Pow256(1) == 0x100 && Pow256(2) == 0x1_0000;
      assert Pow256(3) == 0x100_0000 && Pow256(4) == 0x1_0000_0000;
    }
  }

  // Trees of everything the encoder can write and the decoder read back.

  datatype Item =
    | IUint(u: nat)
    | IInt(i: int)
    | IBytes(bytes: seq<byte>)
    | IText(text: seq<byte>)
    | IBool(b: bool)
    | IArray(items: seq<Item>)
    | IMap(entries: seq<Item>)     // keys and values in turn

  /** The Go types hold them: uint64, int64 and lengths of at most 63 bits. */
  predicate Fits(t: Item)
    decreases t
  {
    match t
    case IUint(u) => u < MAX64
    case IInt(i) => -MAX63 <= i < MAX63
    case IBytes(s) => |s| < MAX63
    case IText(s) => |s| < MAX63
    case IBool(_) => true
    case IArray(items) => |items| < MAX63 && forall x | x in items :: Fits(x)
    case IMap(entries) => |entries| % 2 == 0 && |entries| / 2 < MAX63 && forall x | x in entries :: Fits(x)
  }

  function EncodeInt(i: int): seq<byte>
    requires -MAX63 <= i < MAX63
  {
    if i >= 0 then Head(Uint, i) else Head(NegInt, -1 - i)
  }

  function Encode(t: Item): seq<byte>
    requires Fits(t)
    decreases t
  {
    match t
    case IUint(u) => Head(Uint, u)
    case IInt(i) => EncodeInt(i)
    case IBytes(s) => Head(Bytes, |s|) + s
    case IText(s) => Head(Text, |s|) + s
    case IBool(b) => [if b then SIMPLE_TRUE else SIMPLE_FALSE]
    case IArray(items) => Head(Array, |items|) + EncodeItems(items)
    case IMap(entries) => Head(Map, |entries| / 2) + EncodeItems(entries)
  }

  function EncodeItems(items: seq<Item>): seq<byte>
    requires forall x | x in items :: Fits(x)
    decreases items
  {
    if items == [] then [] else Encode(items[0]) + EncodeItems(items[1..])
  }

  /** What the reader expects: which Decode call to make at each place. */
  datatype Shape = SUint | SInt | SBytes | SText | SBool | SArray(items: seq<Shape>) | SMap(entries: seq<Shape>)

  function Expect<T>(r: Read<(Major, nat)>, m: Major, use: nat -> T): Read<T> {
    if r.result.Err? then Read(r.pos, Err(r.result.error))
    else if r.result.value.0 != m then Read(r.pos, Err(InvalidType))
    else Read(r.pos, Ok(use(r.result.value.1)))
  }

  function DecodeUint(data: seq<byte>, pos: nat): Read<nat> {
    Expect(ReadHead(data, pos), Uint, (v: nat) => v)
  }

  /** Go's conversion of a uint64 to int64. */
  function ToInt64(v: int): int {
    if v >= MAX63 then v - MAX64 else v
  }

  /** And of an int64 to uint64. */
  function ToUint64(v: int): nat
    requires -MAX63 <= v < MAX63
  {
    if v < 0 then v + MAX64 else v
  }

  function DecodeInt(data: seq<byte>, pos: nat): Read<int> {
    var r := ReadHead(data, pos);
    if r.result.Err? then Read(r.pos, Err(r.result.error))
    else match r.result.value.0
      case Uint => Read(r.pos, Ok(ToInt64(r.result.value.1)))
      case NegInt => Read(r.pos, Ok(-1 - ToInt64(r.result.value.1)))
      case _ => Read(r.pos, Err(InvalidType))
  }

  /** DecodeBytes and DecodeText. A length that makes pos + int(length) leave the int range slips past
      the check and makes the allocation panic. */
  function DecodeString(m: Major, data: seq<byte>, pos: nat): Read<seq<byte>> {
    var r := Expect(ReadHead(data, pos), m, (v: nat) => v);
    if r.result.Err? then Read(r.pos, Err(r.result.error))
    else
      var length := r.result.value;
      if length >= MAX63 || r.pos + length >= MAX63 then Read(r.pos, Err(Panic))
      else if r.pos + length > |data| then Read(r.pos, Err(UnexpectedEnd))
      else Read(r.pos + length, Ok(data[r.pos..r.pos + length]))
  }

  function DecodeLength(m: Major, data: seq<byte>, pos: nat): Read<int> {
    Expect(ReadHead(data, pos), m, (v: nat) => ToInt64(v))
  }

  function DecodeBool(data: seq<byte>, pos: nat): Read<bool> {
    if pos >= |data| then Read(pos, Err(UnexpectedEnd))
    else if data[pos] == SIMPLE_TRUE then Read(pos + 1, Ok(true))
    else if data[pos] == SIMPLE_FALSE then Read(pos + 1, Ok(false))
    else Read(pos + 1, Err(InvalidType))
  }

  function ShapeOf(t: Item): Shape
    decreases t
  {
    match t
    case IUint(_) => SUint
    case IInt(_) => SInt
    case IBytes(_) => SBytes
    case IText(_) => SText
    case IBool(_) => SBool
    case IArray(items) => SArray(ShapesOf(items))
    case IMap(entries) => SMap(ShapesOf(entries))
  }

  function ShapesOf(items: seq<Item>): (r: seq<Shape>)
    ensures |r| == |items|
    decreases items
  {
    if items == [] then [] else [ShapeOf(items[0])] + ShapesOf(items[1..])
  }

  function Wrap<T>(r: Read<T>, f: T -> Item): Read<Item> {
    Read(r.pos, if r.result.Ok? then Ok(f(r.result.value)) else Err(r.result.error))
  }

  /** A reader that makes the call each place of the shape asks for, and stops at a container whose
      length is not the one it expects. */
  function DecodeAs(shape: Shape, data: seq<byte>, pos: nat): Read<Item>
    decreases shape
  {
    match shape
    case SUint => Wrap(DecodeUint(data, pos), (u: nat) => IUint(u))
    case SInt => Wrap(DecodeInt(data, pos), (i: int) => IInt(i))
    case SBytes => Wrap(DecodeString(Bytes, data, pos), (s: seq<byte>) => IBytes(s))
    case SText => Wrap(DecodeString(Text, data, pos), (s: seq<byte>) => IText(s))
    case SBool => Wrap(DecodeBool(data, pos), (b: bool) => IBool(b))
    case SArray(items) =>
      var r := DecodeLength(Array, data, pos);
      if r.result.Err? then Read(r.pos, Err(r.result.error))
      else if r.result.value != |items| then Read(r.pos, Err(InvalidType))
      else Wrap(DecodeAll(items, data, r.pos), (xs: seq<Item>) => IArray(xs))
    case SMap(entries) =>
      var r := DecodeLength(Map, data, pos);
      if r.result.Err? then Read(r.pos, Err(r.result.error))
      else if 2 * r.result.value != |entries| then Read(r.pos, Err(InvalidType))
      else Wrap(DecodeAll(entries, data, r.pos), (xs: seq<Item>) => IMap(xs))
  }

  function DecodeAll(shapes: seq<Shape>, data: seq<byte>, pos: nat): Read<seq<Item>>
    decreases shapes
  {
    if shapes == [] then Read(pos, Ok([])) else
    var first := DecodeAs(shapes[0], data, pos);
    if first.result.Err? then Read(first.pos, Err(first.result.error)) else
    var rest := DecodeAll(shapes[1..], data, first.pos);
    Read(rest.pos, if rest.result.Ok? then Ok([first.result.value] + rest.result.value) else rest.result)
  }

  lemma StringRoundTrip(m: Major, s: seq<byte>, before: seq<byte>, after: seq<byte>)
    requires |s| < MAX63 && |before + (Head(m, |s|) + s) + after| < MAX63
    ensures var data := before + (Head(m, |s|) + s) + after;
            DecodeString(m, data, |before|) == Read(|before| + |Head(m, |s|) + s|, Ok(s))
  {
    var data := before + (Head(m, |s|) + s) + after;
    assert data == before + Head(m, |s|) + (s + after);
    HeadRoundTrip(m, |s|, before, s + after);
    var pos := |before| + |Head(m, |s|)|;
    assert data[pos..pos + |s|] == s;
  }

  lemma IntRoundTrip(i: int, before: seq<byte>, after: seq<byte>)
    requires -MAX63 <= i < MAX63
    ensures DecodeInt(before + EncodeInt(i) + after, |before|) == Read(|before| + |EncodeInt(i)|, Ok(i))
  {
    if i >= 0 {
      HeadRoundTrip(Uint, i, before, after);
    } else {
      HeadRoundTrip(NegInt, -1 - i, before, after);
    }
  }

  lemma ScalarRoundTrip(t: Item, before: seq<byte>, after: seq<byte>)
    requires Fits(t) && !t.IArray? && !t.IMap? && |before + Encode(t) + after| < MAX63
    ensures DecodeAs(ShapeOf(t), before + Encode(t) + after, |before|) == Read(|before| + |Encode(t)|, Ok(t))
  {
    match t {
      case IUint(u) => HeadRoundTrip(Uint, u, before, after);
      case IInt(i) => IntRoundTrip(i, before, after);
      case IBytes(s) => StringRoundTrip(Bytes, s, before, after);
      case IText(s) => StringRoundTrip(Text, s, before, after);
      case IBool(b) => assert (before + Encode(t) + after)[|before|] == Encode(t)[0];
    }
  }

  /** Decoding the encoding of any tree returns that tree and consumes exactly its bytes, whatever
      stands before and after them (a Go slice holds fewer than 2^63 bytes). */
  lemma {:induction false} RoundTrip(t: Item, before: seq<byte>, after: seq<byte>)
    requires Fits(t) && |before + Encode(t) + after| < MAX63
    ensures DecodeAs(ShapeOf(t), before + Encode(t) + after, |before|) == Read(|before| + |Encode(t)|, Ok(t))
    decreases t
  {
    hide Head, DecodeLength, DecodeAs, DecodeAll, EncodeItems, ShapesOf;
    if t.IArray? {
      ContainerRoundTrip(Array, |t.items|, t.items, before, after);
      ContainerSteps(ShapesOf(t.items), before + Encode(t) + after, |before|);
    } else if t.IMap? {
      ContainerRoundTrip(Map, |t.entries| / 2, t.entries, before, after);
      ContainerSteps(ShapesOf(t.entries), before + Encode(t) + after, |before|);
    } else {
      ScalarRoundTrip(t, before, after);
    }
  }

  lemma ContainerSteps(shapes: seq<Shape>, data: seq<byte>, pos: nat)
    ensures DecodeAs(SArray(shapes), data, pos) ==
            var r := DecodeLength(Array, data, pos);
            if r.result.Err? then Read(r.pos, Err(r.result.error))
            else if r.result.value != |shapes| then Read(r.pos, Err(InvalidType))
            else Wrap(DecodeAll(shapes, data, r.pos), (xs: seq<Item>) => IArray(xs))
    ensures DecodeAs(SMap(shapes), data, pos) ==
            var r := DecodeLength(Map, data, pos);
            if r.result.Err? then Read(r.pos, Err(r.result.error))
            else if 2 * r.result.value != |shapes| then Read(r.pos, Err(InvalidType))
            else Wrap(DecodeAll(shapes, data, r.pos), (xs: seq<Item>) => IMap(xs))
  {
    hide DecodeLength, DecodeAll;
  }

  lemma {:induction false} ContainerRoundTrip(m: Major, n: nat, items: seq<Item>, before: seq<byte>, after: seq<byte>)
    requires n < MAX63 && forall x | x in items :: Fits(x)
    requires |before + (Head(m, n) + EncodeItems(items)) + after| < MAX63
    ensures var data, pos := before + (Head(m, n) + EncodeItems(items)) + after, |before| + |Head(m, n)|;
            && DecodeLength(m, data, |before|) == Read(pos, Ok(n))
            && DecodeAll(ShapesOf(items), data, pos) == Read(pos + |EncodeItems(items)|, Ok(items))
    decreases items, 1
  {
    hide Head, ReadHead, EncodeItems, DecodeAll, ShapesOf, Fits;
    var data := before + (Head(m, n) + EncodeItems(items)) + after;
    assert data == before + Head(m, n) + (EncodeItems(items) + after);
    HeadRoundTrip(m, n, before, EncodeItems(items) + after);
    assert data == (before + Head(m, n)) + EncodeItems(items) + after;
    ItemsRoundTrip(items, before + Head(m, n), after);
  }

  lemma {:induction false} ItemsRoundTrip(items: seq<Item>, before: seq<byte>, after: seq<byte>)
    requires forall x | x in items :: Fits(x)
    requires |before + EncodeItems(items) + after| < MAX63
    ensures DecodeAll(ShapesOf(items), before + EncodeItems(items) + after, |before|)
         == Read(|before| + |EncodeItems(items)|, Ok(items))
    decreases items, 0
  {
    hide Encode, DecodeAs, ShapeOf, Fits;
    if items != [] {
      var first, rest := Encode(items[0]), EncodeItems(items[1..]);
      var data := before + EncodeItems(items) + after;
      assert data == before + first + (rest + after);
      RoundTrip(items[0], before, rest + after);
      assert data == (before + first) + rest + after;
      ItemsRoundTrip(items[1..], before + first, after);
      assert items == [items[0]] + items[1..];
      DecodeAllStep(items, data, |before|);
    }
  }

  lemma DecodeAllStep(items: seq<Item>, data: seq<byte>, pos: nat)
    requires items != [] && DecodeAs(ShapeOf(items[0]), data, pos).result.Ok?
    ensures var first := DecodeAs(ShapeOf(items[0]), data, pos);
            var rest := DecodeAll(ShapesOf(items[1..]), data, first.pos);
            DecodeAll(ShapesOf(items), data, pos) ==
            Read(rest.pos, if rest.result.Ok? then Ok([first.result.value] + rest.result.value) else rest.result)
  {
    hide DecodeAs, ShapeOf;
    assert ShapesOf(items)[1..] == ShapesOf(items[1..]);
  }

  /** Two trees of one shape with the same bytes, or one a prefix of the other, are the same tree. */
  lemma EncodingIsUnambiguous(t: Item, u: Item, after: seq<byte>)
    requires Fits(t) && Fits(u) && ShapeOf(t) == ShapeOf(u)
    requires Encode(t) + after == Encode(u) && |Encode(u)| < MAX63
    ensures t == u && after == []
  {
    assert [] + Encode(t) + after == Encode(t) + after;
    assert [] + Encode(u) + [] == Encode(u);
    RoundTrip(t, [], after);
    RoundTrip(u, [], []);
  }

  /** DecodeInt returns an EncodeUint value unchanged exactly below 2^63. */
  lemma UintReadAsInt(u: nat)
    requires u < MAX64
    ensures DecodeInt(Head(Uint, u), 0).result == Ok(u) <==> u < MAX63
  {
    assert [] + Head(Uint, u) + [] == Head(Uint, u);
    HeadRoundTrip(Uint, u, [], []);
  }
}
