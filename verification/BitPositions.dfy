/** Arrays of 64-bit words as sets of positions, the common ground of the bit set and the Bloom filter. */
module BitPositions {
  import opened Words

  predicate In(words: seq<Word>, p: nat) {
    p < 64 * |words| && Bit(words[p / 64], p % 64)
  }

  ghost function View(words: seq<Word>): set<nat> {
    set p: nat | p < 64 * |words| && In(words, p)
  }

  // Writing a word writes one position.

  lemma WordWritten(words: seq<Word>, p: nat, w: Word, on: bool)
    requires p < 64 * |words|
    requires forall j: nat | j < 64 :: Bit(w, j) <==> if j == p % 64 then on else Bit(words[p / 64], j)
    ensures View(words[p / 64 := w]) == if on then View(words) + {p} else View(words) - {p}
  {
    var after := words[p / 64 := w];
    forall q: nat | q < 64 * |words| ensures In(after, q) <==> if q == p then on else In(words, q) {
      assert q / 64 == p / 64 && q % 64 == p % 64 ==> q == p;
    }
  }

  /** words[p/64] |= 1 << (p%64). */
  lemma SetWritten(words: seq<Word>, p: nat)
    requires p < 64 * |words|
    ensures View(words[p / 64 := Or(words[p / 64], Mask(p % 64))]) == View(words) + {p}
  {
    hide Mask, And, Or;
    var w := words[p / 64];
    forall j: nat | j < 64 ensures Bit(Or(w, Mask(p % 64)), j) <==> if j == p % 64 then true else Bit(w, j) {
      SetBit(w, p % 64, j);
    }
    WordWritten(words, p, Or(w, Mask(p % 64)), true);
  }

  lemma ClearWritten(words: seq<Word>, p: nat)
    requires p < 64 * |words|
    ensures View(words[p / 64 := AndNot(words[p / 64], Mask(p % 64))]) == View(words) - {p}
  {
    hide Mask, And, AndNot;
    var w := words[p / 64];
    forall j: nat | j < 64 ensures Bit(AndNot(w, Mask(p % 64)), j) <==> if j == p % 64 then false else Bit(w, j) {
      ClearBit(w, p % 64, j);
    }
    WordWritten(words, p, AndNot(w, Mask(p % 64)), false);
  }

  lemma ToggleWritten(words: seq<Word>, p: nat)
    requires p < 64 * |words|
    ensures View(words[p / 64 := Xor(words[p / 64], Mask(p % 64))])
         == if p in View(words) then View(words) - {p} else View(words) + {p}
  {
    hide Mask, And, Xor;
    var w, on := words[p / 64], !In(words, p);
    forall j: nat | j < 64 ensures Bit(Xor(w, Mask(p % 64)), j) <==> if j == p % 64 then on else Bit(w, j) {
      ToggleBit(w, p % 64, j);
    }
    WordWritten(words, p, Xor(w, Mask(p % 64)), on);
  }

  lemma NoBits(i: nat)
    ensures !Bit(0, i)
  {
  }

  lemma AllClear(words: seq<Word>)
    requires forall i | 0 <= i < |words| :: words[i] == 0
    ensures View(words) == {}
  {
    forall p: nat | p < 64 * |words| ensures !In(words, p) {
      NoBits(p % 64);
    }
  }

  lemma FullBit(i: nat)
    requires i < 64
    ensures Bit(0xffff_ffff_ffff_ffff, i)
  {
    hide Mask;
    MaskNonZero(i);
  }

  lemma AllSet(words: seq<Word>)
    requires forall i | 0 <= i < |words| :: words[i] == 0xffff_ffff_ffff_ffff
    ensures forall p: nat :: p in View(words) <==> p < 64 * |words|
  {
    forall p: nat | p < 64 * |words| ensures In(words, p) {
      FullBit(p % 64);
    }
  }

  lemma {:induction false} SizeOfAll(all: set<nat>, n: nat)
    requires forall p: nat :: p in all <==> p < n
    ensures |all| == n
  {
    if n > 0 {
      SizeOfAll(all - {n - 1}, n - 1);
    } else {
      assert all == {};
    }
  }

  // Counting ones counts positions.

  function One(b: bool): nat { if b then 1 else 0 }

  /** How many of the lowest n bits are set. */
  function Among(x: Word, n: nat): nat {
    if n == 0 then 0 else Among(x, n - 1) + One(Bit(x, n - 1))
  }

  lemma BitZero(x: Word)
    ensures Bit(x, 0) <==> Odd(x)
  {
    assert Mask(0) == 1;
  }

  lemma {:induction false} AmongHalf(x: Word, n: nat)
    ensures Among(x, n + 1) == One(Odd(x)) + Among(Half(x), n)
  {
    hide Bit, Half, Odd;
    if n == 0 {
      BitZero(x);
    } else {
      AmongHalf(x, n - 1);
      BitStep(x, n - 1);
    }
  }

  /** x is below 2^n. */
  predicate Fits(x: Word, n: nat) {
    if n == 0 then x == 0 else Fits(Half(x), n - 1)
  }

  lemma {:induction false} OnesAmong(x: Word, n: nat)
    requires Fits(x, n)
    ensures Ones(x) == Among(x, n)
    decreases n
  {
    hide Bit, Half, Odd, Among;
    if n == 0 {
      AmongNone(x);
    } else {
      AmongHalf(x, n - 1);
      OnesAmong(Half(x), n - 1);
      OnesStep(x);
    }
  }

  lemma AmongNone(x: Word)
    ensures Among(x, 0) == 0
  {
  }

  function Down4(x: Word): Word { x >> 4 }

  function Down16(x: Word): Word { x >> 16 }

  lemma DownSteps(x: Word)
    ensures Half(Half(Half(Half(x)))) == Down4(x)
    ensures Down4(Down4(Down4(Down4(x)))) == Down16(x)
    ensures Down16(Down16(Down16(Down16(x)))) == 0
  {
  }

  lemma FitsStep(x: Word, n: nat)
    ensures Fits(x, n + 1) == Fits(Half(x), n)
  {
  }

  lemma FitsByFours(x: Word, n: nat)
    ensures Fits(x, n + 4) == Fits(Down4(x), n)
  {
    hide Fits, Half, Down4;
    DownSteps(x);
    FitsStep(x, n + 3);
    FitsStep(Half(x), n + 2);
    FitsStep(Half(Half(x)), n + 1);
    FitsStep(Half(Half(Half(x))), n);
  }

  lemma FitsBySixteens(x: Word, n: nat)
    ensures Fits(x, n + 16) == Fits(Down16(x), n)
  {
    hide Fits, Down4, Down16;
    DownSteps(x);
    FitsByFours(x, n + 12);
    FitsByFours(Down4(x), n + 8);
    FitsByFours(Down4(Down4(x)), n + 4);
    FitsByFours(Down4(Down4(Down4(x))), n);
  }

  lemma FitsInWord(x: Word)
    ensures Fits(x, 64)
  {
    assert Fits(0, 0);
    hide Fits, Down16;
    DownSteps(x);
    FitsBySixteens(x, 48);
    FitsBySixteens(Down16(x), 32);
    FitsBySixteens(Down16(Down16(x)), 16);
    FitsBySixteens(Down16(Down16(Down16(x))), 0);
  }

  predicate PlacedAt(x: Word, base: nat, p: nat) {
    base <= p && Bit(x, p - base)
  }

  /** Positions base, base + 1, ... of the lowest n bits of x. */
  ghost function Placed(x: Word, base: nat, n: nat): set<nat> {
    set p: nat | p < base + n && PlacedAt(x, base, p)
  }

  lemma {:induction false} PlacedSize(x: Word, base: nat, n: nat)
    ensures |Placed(x, base, n)| == Among(x, n)
  {
    hide Bit;
    if n == 0 {
      assert Placed(x, base, n) == {};
    } else {
      PlacedSize(x, base, n - 1);
      var p := base + (n - 1);
      assert Placed(x, base, n) == Placed(x, base, n - 1) + (if Bit(x, n - 1) then {p} else {});
    }
  }

  function OnesOf(words: seq<Word>): nat {
    if words == [] then 0 else OnesOf(words[..|words| - 1]) + Ones(words[|words| - 1])
  }

  lemma LastWord(words: seq<Word>)
    requires words != []
    ensures var n := |words| - 1;
            View(words) == View(words[..n]) + Placed(words[n], 64 * n, 64) && View(words[..n]) !! Placed(words[n], 64 * n, 64)
  {
    hide Bit;
    var n := |words| - 1;
    forall p: nat ensures p in View(words) <==> p in View(words[..n]) || p in Placed(words[n], 64 * n, 64) {
      if p >= 64 * n && p < 64 * |words| {
        assert p / 64 == n && p % 64 == p - 64 * n;
      }
    }
  }

  /** The ones of all words are as many as the positions set. */
  lemma {:induction false} CountsPositions(words: seq<Word>)
    ensures OnesOf(words) == |View(words)|
  {
    hide Bit, View, Placed, Among, Ones;
    if words == [] {
      AllClear(words);
    } else {
      var n := |words| - 1;
      CountsPositions(words[..n]);
      LastWord(words);
      PlacedSize(words[n], 64 * n, 64);
      FitsInWord(words[n]);
      OnesAmong(words[n], 64);
    }
  }
}
