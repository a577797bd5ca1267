/** 64-bit words as packages/golib/bitset/bitset.go and packages/golib/bloom/bloom.go use them: single
    bits, and what it means to count ones. The operators have names so that the proofs about positions
    can leave their meaning to small lemmas, one equation each. */
module Words {
  type Word = bv64

  function And(a: Word, b: Word): Word { a & b }

  function Or(a: Word, b: Word): Word { a | b }

  function Xor(a: Word, b: Word): Word { a ^ b }

  /** Go's a &^ b. */
  function AndNot(a: Word, b: Word): Word { a & !b }

  function Half(a: Word): Word { a >> 1 }

  function Double(a: Word): Word { a << 1 }

  /** 1 << i. */
  function Mask(i: nat): Word {
    if i == 0 then 1 else Double(Mask(i - 1))
  }

  predicate Bit(x: Word, i: nat) {
    And(x, Mask(i)) != 0
  }

  predicate Odd(x: Word) { x & 1 != 0 }

  /** How many ones x has in binary. */
  function Ones(x: Word): nat
    decreases x
  {
    if x == 0 then 0 else (if Odd(x) then 1 else 0) + Ones(Half(x))
  }

  lemma OnesStep(x: Word)
    ensures Ones(x) == (if Odd(x) then 1 else 0) + Ones(Half(x))
  {
  }

  // Masks.

  lemma HalfAnd(x: Word, m: Word)
    ensures And(x, Double(m)) == Double(And(Half(x), m))
    ensures And(x, Double(m)) == 0 <==> And(Half(x), m) == 0
  {
  }

  /** Halving a word shifts its bits down. */
  lemma BitStep(x: Word, i: nat)
    ensures Bit(x, i + 1) <==> Bit(Half(x), i)
  {
    hide And, Half, Double;
    HalfAnd(x, Mask(i));
  }

  lemma DoublesApart(a: Word, b: Word)
    ensures And(a, b) == 0 ==> And(Double(a), Double(b)) == 0
  {
  }

  lemma DoubleAndOne(a: Word)
    ensures And(1, Double(a)) == And(Double(a), 1) == 0
  {
  }

  lemma {:induction false} MasksApart(i: nat, j: nat)
    requires i != j
    ensures And(Mask(i), Mask(j)) == 0
    decreases i + j
  {
    hide And, Double;
    if i == 0 {
      DoubleAndOne(Mask(j - 1));
    } else if j == 0 {
      DoubleAndOne(Mask(i - 1));
    } else {
      MasksApart(i - 1, j - 1);
      DoublesApart(Mask(i - 1), Mask(j - 1));
    }
  }

  lemma LowBit(x: Word)
    ensures And(x, 1) == 0 || And(x, 1) == 1
  {
  }

  lemma DoubleZero()
    ensures Double(0) == 0
  {
  }

  /** A mask has one bit, so what it cuts out of a word is nothing or all of it. */
  lemma {:induction false} AllOrNothing(x: Word, i: nat)
    ensures And(x, Mask(i)) == 0 || And(x, Mask(i)) == Mask(i)
    decreases i
  {
    hide And, Half, Double;
    if i > 0 {
      AllOrNothing(Half(x), i - 1);
      HalfAnd(x, Mask(i - 1));
      DoubleZero();
    } else {
      LowBit(x);
    }
  }

  lemma MaskStep(i: nat)
    ensures Mask(i + 1) == Mask(i) << 1
  {
  }

  lemma MaskByFours(i: nat)
    ensures Mask(i + 4) == Mask(i) << 4
  {
    hide Mask;
    MaskStep(i);
    MaskStep(i + 1);
    MaskStep(i + 2);
    MaskStep(i + 3);
  }

  lemma MaskBySixteens(i: nat)
    ensures Mask(i + 16) == Mask(i) << 16
  {
    hide Mask;
    MaskByFours(i);
    MaskByFours(i + 4);
    MaskByFours(i + 8);
    MaskByFours(i + 12);
  }

  lemma TopMask()
    ensures Mask(63) != 0
  {
    assert Mask(0) == 1;
    hide Mask;
    MaskBySixteens(0);
    MaskBySixteens(16);
    MaskBySixteens(32);
    MaskByFours(48);
    MaskByFours(52);
    MaskByFours(56);
    MaskStep(60);
    MaskStep(61);
    MaskStep(62);
  }

  lemma {:induction false} MaskVanishes(i: nat, j: nat)
    requires i <= j && Mask(i) == 0
    ensures Mask(j) == 0
    decreases j
  {
    if i < j {
      MaskVanishes(i, j - 1);
    }
  }

  lemma MaskNonZero(i: nat)
    requires i < 64
    ensures Mask(i) != 0
  {
    hide Mask;
    TopMask();
    if Mask(i) == 0 {
      MaskVanishes(i, 63);
    }
  }

  // Writing one bit.

  lemma SetBit(x: Word, i: nat, j: nat)
    requires i < 64
    ensures Bit(Or(x, Mask(i)), j) <==> Bit(x, j) || i == j
  {
    hide Mask, And, Or;
    if i == j {
      MaskNonZero(i);
      SetHere(x, Mask(i));
    } else {
      MasksApart(i, j);
      SetElsewhere(x, Mask(i), Mask(j));
    }
  }

  lemma ClearBit(x: Word, i: nat, j: nat)
    ensures Bit(AndNot(x, Mask(i)), j) <==> Bit(x, j) && i != j
  {
    hide Mask, And, AndNot;
    if i == j {
      ClearHere(x, Mask(i));
    } else {
      MasksApart(i, j);
      ClearElsewhere(x, Mask(i), Mask(j));
    }
  }

  lemma ToggleBit(x: Word, i: nat, j: nat)
    requires i < 64
    ensures Bit(Xor(x, Mask(i)), j) <==> (Bit(x, j) <==> i != j)
  {
    hide Mask, And, Xor;
    if i == j {
      MaskNonZero(i);
      AllOrNothing(x, i);
      ToggleHere(x, Mask(i));
    } else {
      MasksApart(i, j);
      ToggleElsewhere(x, Mask(i), Mask(j));
    }
  }

  lemma SetHere(x: Word, a: Word)
    ensures And(Or(x, a), a) == a
  {
  }

  lemma ClearHere(x: Word, a: Word)
    ensures And(AndNot(x, a), a) == 0
  {
  }

  lemma ToggleHere(x: Word, a: Word)
    ensures And(x, a) == 0 ==> And(Xor(x, a), a) == a
    ensures And(x, a) == a ==> And(Xor(x, a), a) == 0
  {
  }

  lemma SetElsewhere(x: Word, a: Word, b: Word)
    ensures And(a, b) == 0 ==> And(Or(x, a), b) == And(x, b)
  {
  }

  lemma ClearElsewhere(x: Word, a: Word, b: Word)
    ensures And(a, b) == 0 ==> And(AndNot(x, a), b) == And(x, b)
  {
  }

  lemma ToggleElsewhere(x: Word, a: Word, b: Word)
    ensures And(a, b) == 0 ==> And(Xor(x, a), b) == And(x, b)
  {
  }
}
