/** The two popcounts: Kernighan's loop of packages/golib/bitset/bitset.go and the parallel sums of
    packages/golib/bloom/bloom.go. Both count the ones of every 64-bit word. */
module Popcount {
  import opened Words

  // Kernighan: x & (x - 1) drops the lowest one.

  function Drop(x: Word): Word { x & (x - 1) }

  lemma HalfOfDrop(x: Word)
    ensures !Odd(Drop(x))
    ensures Half(Drop(x)) == if Odd(x) then Half(x) else Drop(Half(x))
  {
  }

  lemma HalfShrinks(x: Word)
    ensures x != 0 ==> Half(x) < x
    ensures x != 0 && !Odd(x) ==> Half(x) != 0
  {
  }

  lemma DropCountsStep(x: Word)
    requires !Odd(x) ==> Ones(Half(x)) == 1 + Ones(Drop(Half(x)))
    ensures Ones(x) == 1 + Ones(Drop(x))
  {
    hide Half, Drop, Ones, Odd;
    OnesStep(x);
    OnesStep(Drop(x));
    HalfOfDrop(x);
  }

  lemma {:induction false} DropCounts(x: Word)
    ensures x != 0 ==> Ones(x) == 1 + Ones(Drop(x))
    decreases x
  {
    if x != 0 {
      hide Half, Drop, Ones, Odd;
      HalfShrinks(x);
      if !Odd(x) {
        DropCounts(Half(x));
      }
      DropCountsStep(x);
    }
  }

  method Kernighan(word: Word) returns (count: nat)
    ensures count == Ones(word)
  {
    var x := word;
    count := 0;
    while x != 0
      invariant count + Ones(x) == Ones(word)
      decreases Ones(x)
    {
      DropCounts(x);
      x := Drop(x);
      count := count + 1;
    }
  }

  // The number a small word denotes.

  function Plus(a: Word, b: Word): Word { a + b }

  function Pred(a: Word): Word { a - 1 }

  function Value(v: Word): nat
    decreases v
  {
    if v == 0 then 0 else 1 + Value(Pred(v))
  }

  predicate Little(v: Word) { v <= 0x7f }

  lemma ValueStep(v: Word)
    ensures Value(v) == if v == 0 then 0 else 1 + Value(Pred(v))
  {
  }

  lemma PlusFacts(a: Word, b: Word)
    ensures Plus(a, 0) == a
    ensures Little(a) && Little(b) && b != 0 ==> Plus(a, b) != 0
  {
  }

  lemma PredShrinks(v: Word)
    ensures v != 0 ==> Pred(v) < v
    ensures v != 0 && Little(v) ==> Little(Pred(v))
    ensures v != 0 && v <= 255 ==> Pred(v) <= 255
  {
  }

  lemma PredPlus(a: Word, b: Word)
    requires Little(a) && Little(b) && b != 0
    ensures Pred(Plus(a, b)) == Plus(a, Pred(b))
  {
  }

  lemma {:induction false} ValueOfSum(a: Word, b: Word)
    requires Little(a) && Little(b)
    ensures Value(Plus(a, b)) == Value(a) + Value(b)
    decreases b
  {
    hide Value, Plus, Pred, Little;
    if b == 0 {
      PlusFacts(a, b);
      ValueStep(b);
    } else {
      PlusFacts(a, b);
      PredPlus(a, b);
      PredShrinks(b);
      ValueOfSum(a, Pred(b));
      ValueStep(b);
      ValueStep(Plus(a, b));
    }
  }

  lemma PredInt(v: Word)
    ensures 0 < v <= 255 ==> v as int == Pred(v) as int + 1
  {
  }

  lemma {:induction false} ValueIsInt(v: Word)
    requires v <= 255
    ensures Value(v) == v as int
    decreases v
  {
    if v != 0 {
      hide Value, Pred;
      PredShrinks(v);
      PredInt(v);
      ValueStep(v);
      ValueIsInt(Pred(v));
    }
  }

  // The parallel sums: fields of two, four and eight bits in turn come to hold the count of their bits.

  function Minus(a: Word, b: Word): Word { a - b }

  function Evens(x: Word): Word { x & 0x5555555555555555 }

  function Pairs(x: Word): Word { Minus(x, Evens(Half(x))) }

  function Nibbles(x: Word): Word { (x & 0x3333333333333333) + ((x >> 2) & 0x3333333333333333) }

  function Bytes(x: Word): Word { (x + (x >> 4)) & 0x0f0f0f0f0f0f0f0f }

  function Gather(x: Word): Word { (x * 0x0101010101010101) >> 56 }

  /** The lowest field of 1, 2, 4 or 8 bits, and the word without it. */
  function Low1(w: Word): Word { w & 1 }

  function Low2(w: Word): Word { w & 3 }

  function Low4(w: Word): Word { w & 15 }

  function Low8(w: Word): Word { w & 255 }

  function Rest2(w: Word): Word { w >> 2 }

  function Rest4(w: Word): Word { w >> 4 }

  function Rest8(w: Word): Word { w >> 8 }

  /** The sum of all fields of that width. */
  function Sum2(w: Word): nat
    decreases w
  {
    if w == 0 then 0 else Value(Low2(w)) + Sum2(Rest2(w))
  }

  function Sum4(w: Word): nat
    decreases w
  {
    if w == 0 then 0 else Value(Low4(w)) + Sum4(Rest4(w))
  }

  function Sum8(w: Word): nat
    decreases w
  {
    if w == 0 then 0 else Value(Low8(w)) + Sum8(Rest8(w))
  }

  lemma BitValue(x: Word)
    ensures Value(Low1(x)) == if Odd(x) then 1 else 0
  {
    LowBit(x);
    ValueIsInt(x & 1);
  }

  lemma SumSteps(w: Word)
    ensures Sum2(w) == Value(Low2(w)) + Sum2(Rest2(w))
    ensures Sum4(w) == Value(Low4(w)) + Sum4(Rest4(w))
    ensures Sum8(w) == Value(Low8(w)) + Sum8(Rest8(w))
  {
  }

  lemma HalfTwice(x: Word)
    ensures Half(Half(x)) == Rest2(x)
  {
  }

  lemma Rest2Twice(x: Word)
    ensures Rest2(Rest2(x)) == Rest4(x)
  {
  }

  lemma Rest4Twice(x: Word)
    ensures Rest4(Rest4(x)) == Rest8(x)
  {
  }

  lemma RestShrinks(x: Word)
    ensures x != 0 ==> Rest2(x) < x && Rest4(x) < x && Rest8(x) < x
  {
  }

  lemma LowsLittle(x: Word)
    ensures Little(Low1(x)) && Little(Low2(x)) && Little(Low4(x))
  {
  }

  // Bits to pairs.

  lemma SplitPairs(x: Word)
    ensures x == Evens(x) + (Evens(Half(x)) + Evens(Half(x)))
  {
  }

  lemma Cancel(e: Word, h: Word)
    ensures Minus(e + (h + h), h) == e + h
  {
  }

  lemma PairsIsSum(x: Word)
    ensures Pairs(x) == Evens(x) + Evens(Half(x))
  {
    hide Minus, Evens, Half;
    SplitPairs(x);
    Cancel(Evens(x), Evens(Half(x)));
  }

  lemma SumHigh(x: Word)
    ensures Rest2(Evens(x) + Evens(Half(x))) == Evens(Rest2(x)) + Evens(Half(Rest2(x)))
  {
  }

  lemma PairsLow(x: Word)
    ensures Low2(Pairs(x)) == Plus(Low1(x), Low1(Half(x)))
  {
  }

  lemma PairsHigh(x: Word)
    ensures Rest2(Pairs(x)) == Pairs(Rest2(x))
  {
    hide Pairs, Evens, Half, Rest2;
    PairsIsSum(x);
    PairsIsSum(Rest2(x));
    SumHigh(x);
  }

  lemma PairsOfZero()
    ensures Pairs(0) == 0
  {
  }

  lemma {:induction false} PairsCount(x: Word)
    ensures Sum2(Pairs(x)) == Ones(x)
    decreases x
  {
    if x == 0 {
      PairsOfZero();
    } else {
      hide Ones, Odd, Sum2, Value, Plus, Half, Low1, Low2, Rest2, Pairs, Little;
      RestShrinks(x);
      PairsCount(Rest2(x));
      PairsLow(x);
      PairsHigh(x);
      SumSteps(Pairs(x));
      OnesStep(x);
      OnesStep(Half(x));
      BitValue(x);
      BitValue(Half(x));
      HalfTwice(x);
      LowsLittle(x);
      LowsLittle(Half(x));
      ValueOfSum(Low1(x), Low1(Half(x)));
    }
  }

  // Pairs to nibbles.

  lemma NibblesParts(x: Word)
    ensures Low4(Nibbles(x)) == Plus(Low2(x), Low2(Rest2(x)))
    ensures Rest4(Nibbles(x)) == Nibbles(Rest4(x))
    ensures Small(Nibbles(x))
  {
  }

  lemma {:induction false} NibblesCount(x: Word)
    ensures Sum4(Nibbles(x)) == Sum2(x)
    decreases x
  {
    if x != 0 {
      hide Sum2, Sum4, Value, Plus, Low2, Low4, Rest2, Rest4, Nibbles, Little;
      RestShrinks(x);
      NibblesCount(Rest4(x));
      NibblesParts(x);
      SumSteps(Nibbles(x));
      SumSteps(x);
      SumSteps(Rest2(x));
      Rest2Twice(x);
      LowsLittle(x);
      LowsLittle(Rest2(x));
      ValueOfSum(Low2(x), Low2(Rest2(x)));
    }
  }

  // Nibbles below eight to bytes.

  predicate Small(x: Word) { x & 0x8888888888888888 == 0 }

  lemma BytesParts(x: Word)
    requires Small(x)
    ensures Low8(Bytes(x)) == Plus(Low4(x), Low4(Rest4(x)))
    ensures Rest8(Bytes(x)) == Bytes(Rest8(x)) && Small(Rest8(x))
  {
  }

  lemma {:induction false} BytesCount(x: Word)
    requires Small(x)
    ensures Sum8(Bytes(x)) == Sum4(x)
    decreases x
  {
    if x != 0 {
      hide Sum4, Sum8, Value, Plus, Low4, Low8, Rest4, Rest8, Bytes, Small, Little;
      RestShrinks(x);
      BytesParts(x);
      BytesCount(Rest8(x));
      SumSteps(Bytes(x));
      SumSteps(x);
      SumSteps(Rest4(x));
      Rest4Twice(x);
      LowsLittle(x);
      LowsLittle(Rest4(x));
      ValueOfSum(Low4(x), Low4(Rest4(x)));
    }
  }

  // Bytes to the top byte: the product with 0x0101...01 adds all of them up there.

  function Shift(w: Word, s: Word): Word
    requires s <= 56
  {
    w >> s
  }

  function Byte(w: Word, s: Word): Word
    requires s <= 56
  {
    Low8(Shift(w, s))
  }

  /** Gather's product in three steps, each adding neighbouring bytes into the upper one. */
  function Fold8(y: Word): Word { y * 0x101 }

  function Fold16(t: Word): Word { t * 0x10001 }

  function Fold32(u: Word): Word { u * 0x100000001 }

  lemma Fold8Is(y: Word)
    ensures Fold8(y) == y * 0x101
  {
  }

  lemma Fold16Is(y: Word)
    ensures Fold16(y * 0x101) == y * 0x1010101
  {
  }

  lemma Fold16Of(t: Word)
    ensures Fold16(t) == t * 0x10001
  {
  }

  lemma Fold32Is(y: Word)
    ensures Fold32(y * 0x1010101) == y * 0x0101010101010101
  {
  }

  lemma GatherIs(y: Word)
    ensures Gather(y) == Shift(y * 0x0101010101010101, 56)
  {
  }

  lemma GatherFolds(y: Word)
    ensures Gather(y) == Shift(Fold32(Fold16(Fold8(y))), 56)
  {
    hide *;
    Fold8Is(y);
    Fold16Is(y);
    Fold32Is(y);
    GatherIs(y);
  }

  predicate Tiny(y: Word) { y & 0xf0f0f0f0f0f0f0f0 == 0 }

  predicate Tinier(t: Word) { t & 0xe0e0e0e0e0e0e0e0 == 0 }

  predicate Tiniest(u: Word) { u & 0xc0c0c0c0c0c0c0c0 == 0 }

  lemma BytesTiny(x: Word)
    ensures Tiny(Bytes(x))
  {
  }

  lemma ProductBytes(y: Word, s: Word)
    requires Tiny(y) && (s == 8 || s == 24 || s == 40 || s == 56)
    ensures Byte(y * 0x101, s) == Plus(Byte(y, s), Byte(y, s - 8))
  {
  }

  lemma FoldBytes(y: Word, s: Word)
    requires Tiny(y) && (s == 8 || s == 24 || s == 40 || s == 56)
    ensures Byte(Fold8(y), s) == Plus(Byte(y, s), Byte(y, s - 8))
  {
    hide *;
    Fold8Is(y);
    ProductBytes(y, s);
  }

  lemma ProductPairs(t: Word, s: Word)
    requires Tinier(t) && (s == 24 || s == 56)
    ensures Byte(t * 0x10001, s) == Plus(Byte(t, s), Byte(t, s - 16))
  {
  }

  lemma FoldPairs(t: Word, s: Word)
    requires Tinier(t) && (s == 24 || s == 56)
    ensures Byte(Fold16(t), s) == Plus(Byte(t, s), Byte(t, s - 16))
  {
    hide *;
    Fold16Of(t);
    ProductPairs(t, s);
  }

  lemma FoldsStayTiny(y: Word)
    ensures Tiny(y) ==> Tinier(y) && Tinier(Fold8(y))
    ensures Tinier(y) ==> Tiniest(y) && Tiniest(Fold16(y))
  {
  }

  lemma FoldHalves(u: Word)
    requires Tiniest(u)
    ensures Shift(Fold32(u), 56) == Plus(Byte(u, 56), Byte(u, 24))
  {
  }

  predicate Aligned(s: Word) {
    s == 0 || s == 8 || s == 16 || s == 24 || s == 32 || s == 40 || s == 48 || s == 56
  }

  lemma ByteLittle(u: Word, s: Word)
    ensures Tiniest(u) && Aligned(s) ==> Little(Byte(u, s))
  {
  }

  lemma FoldBytesValue(y: Word, s: Word)
    requires Tiny(y) && (s == 8 || s == 24 || s == 40 || s == 56)
    ensures Value(Byte(Fold8(y), s)) == Value(Byte(y, s)) + Value(Byte(y, s - 8))
  {
    hide Value, Plus, Little, Tiny, Tinier, Tiniest, Byte, Fold8;
    FoldBytes(y, s);
    FoldsStayTiny(y);
    ByteLittle(y, s);
    ByteLittle(y, s - 8);
    ValueOfSum(Byte(y, s), Byte(y, s - 8));
  }

  lemma FoldPairsValue(t: Word, s: Word)
    requires Tinier(t) && (s == 24 || s == 56)
    ensures Value(Byte(Fold16(t), s)) == Value(Byte(t, s)) + Value(Byte(t, s - 16))
  {
    hide Value, Plus, Little, Tinier, Tiniest, Byte, Fold16;
    FoldPairs(t, s);
    FoldsStayTiny(t);
    ByteLittle(t, s);
    ByteLittle(t, s - 16);
    ValueOfSum(Byte(t, s), Byte(t, s - 16));
  }

  lemma FoldHalvesValue(u: Word)
    requires Tiniest(u)
    ensures Value(Shift(Fold32(u), 56)) == Value(Byte(u, 56)) + Value(Byte(u, 24))
  {
    hide Value, Plus, Little, Tiniest, Byte, Shift, Fold32;
    FoldHalves(u);
    ByteLittle(u, 56);
    ByteLittle(u, 24);
    ValueOfSum(Byte(u, 56), Byte(u, 24));
  }

  ghost function SumOfBytes(y: Word): nat {
    Value(Byte(y, 0)) + Value(Byte(y, 8)) + Value(Byte(y, 16)) + Value(Byte(y, 24)) +
    Value(Byte(y, 32)) + Value(Byte(y, 40)) + Value(Byte(y, 48)) + Value(Byte(y, 56))
  }

  lemma GatherSums(y: Word)
    requires Tiny(y)
    ensures Value(Gather(y)) == SumOfBytes(y)
  {
    hide Value, Byte, Shift, Tiny, Tinier, Tiniest, Gather, Fold8, Fold16, Fold32;
    GatherFolds(y);
    FoldsStayTiny(y);
    FoldsStayTiny(Fold8(y));
    FoldHalvesValue(Fold16(Fold8(y)));
    FoldPairsValue(Fold8(y), 56);
    FoldPairsValue(Fold8(y), 24);
    FoldBytesValue(y, 56);
    FoldBytesValue(y, 40);
    FoldBytesValue(y, 24);
    FoldBytesValue(y, 8);
  }

  lemma NextByte(y: Word, s: Word)
    ensures Aligned(s) && s < 56 ==> Rest8(Shift(y, s)) == Shift(y, s + 8)
  {
  }

  lemma NoMoreBytes(y: Word)
    ensures Rest8(Shift(y, 56)) == 0
  {
  }

  lemma FirstByte(y: Word)
    ensures Shift(y, 0) == y
  {
  }

  lemma PeelByte(y: Word, s: Word)
    requires Aligned(s) && s < 56
    ensures Sum8(Shift(y, s)) == Value(Byte(y, s)) + Sum8(Shift(y, s + 8))
  {
    hide Sum8, Rest8, Shift, Low8, Value;
    NextByte(y, s);
    SumSteps(Shift(y, s));
  }

  lemma PeelLast(y: Word)
    ensures Sum8(Shift(y, 56)) == Value(Byte(y, 56))
  {
    assert Sum8(0) == 0;
    hide Sum8, Rest8, Shift, Low8, Value;
    NoMoreBytes(y);
    SumSteps(Shift(y, 56));
  }

  lemma Sum8OfBytes(y: Word)
    ensures Sum8(y) == SumOfBytes(y)
  {
    hide Sum8, Shift, Value, Byte;
    FirstByte(y);
    PeelByte(y, 0);
    PeelByte(y, 8);
    PeelByte(y, 16);
    PeelByte(y, 24);
    PeelByte(y, 32);
    PeelByte(y, 40);
    PeelByte(y, 48);
    PeelLast(y);
  }

  /** Three rounds of adding fields and the product leave the number of ones of any word. */
  lemma ParallelCounts(x: Word)
    ensures Value(Gather(Bytes(Nibbles(Pairs(x))))) == Ones(x)
  {
    hide *;
    PairsCount(x);
    NibblesCount(Pairs(x));
    NibblesParts(Pairs(x));
    BytesCount(Nibbles(Pairs(x)));
    BytesTiny(Nibbles(Pairs(x)));
    Sum8OfBytes(Bytes(Nibbles(Pairs(x))));
    GatherSums(Bytes(Nibbles(Pairs(x))));
  }

  lemma GatherByte(y: Word)
    ensures Gather(y) <= 255
  {
  }

  lemma ParallelInt(x: Word)
    ensures Gather(Bytes(Nibbles(Pairs(x)))) as int == Ones(x)
  {
    hide *;
    ParallelCounts(x);
    GatherByte(Bytes(Nibbles(Pairs(x))));
    ValueIsInt(Gather(Bytes(Nibbles(Pairs(x)))));
  }

  method Parallel(word: Word) returns (count: nat)
    ensures count == Ones(word)
  {
    hide Pairs, Nibbles, Bytes, Gather, Ones;
    var x := Pairs(word);
    x := Nibbles(x);
    x := Bytes(x);
    ParallelInt(word);
    count := Gather(x) as int;
  }
}
