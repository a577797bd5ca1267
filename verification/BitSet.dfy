/** packages/golib/bitset/bitset.go: a bit set over 64-bit words, proved against the set of positions. */
module BitSet {
  import opened BitPositions
  import opened Words
  import Popcount

  class BitSet {
    const words: array<Word>
    const size: int

    ghost predicate Valid() {
      size >= 0 && words.Length == (size + 63) / 64
    }

    /** The positions set, those past the size included. */
    ghost function Positions(): set<nat>
      reads words
    {
      View(words[..])
    }

    constructor (size: int)
      ensures Valid() && fresh(words) && Positions() == {}
      ensures this.size == if size < 0 then 0 else size
    {
      var n := if size < 0 then 0 else size;
      this.size := n;
      words := new Word[(n + 63) / 64](_ => 0);
      new;
      AllClear(words[..]);
    }

    method Set(i: int)
      requires Valid()
      modifies words
      ensures Positions() == if 0 <= i < size then old(Positions()) + {i} else old(Positions())
    {
      if i < 0 || i >= size {
        return;
      }
      SetWritten(words[..], i);
      words[i / 64] := Or(words[i / 64], Mask(i % 64));
    }

    method Clear(i: int)
      requires Valid()
      modifies words
      ensures Positions() == if 0 <= i < size then old(Positions()) - {i} else old(Positions())
    {
      if i < 0 || i >= size {
        return;
      }
      ClearWritten(words[..], i);
      words[i / 64] := AndNot(words[i / 64], Mask(i % 64));
    }

    method Toggle(i: int)
      requires Valid()
      modifies words
      ensures Positions() == if !(0 <= i < size) then old(Positions())
                             else if i in old(Positions()) then old(Positions()) - {i} else old(Positions()) + {i}
    {
      if i < 0 || i >= size {
        return;
      }
      ToggleWritten(words[..], i);
      words[i / 64] := Xor(words[i / 64], Mask(i % 64));
    }

    method Test(i: int) returns (r: bool)
      requires Valid()
      ensures r <==> 0 <= i < size && i in Positions()
    {
      if i < 0 || i >= size {
        return false;
      }
      return And(words[i / 64], Mask(i % 64)) != 0;
    }

    method Count() returns (count: nat)
      ensures count == |Positions()|
    {
      count := 0;
      for i := 0 to words.Length
        invariant count == OnesOf(words[..i])
      {
        assert words[..i + 1][..i] == words[..i];
        var n := Popcount.Kernighan(words[i]);
        count := count + n;
      }
      assert words[..words.Length] == words[..];
      CountsPositions(words[..]);
    }

    method ClearAll()
      modifies words
      ensures Positions() == {}
    {
      for i := 0 to words.Length
        invariant forall j | 0 <= j < i :: words[j] == 0
      {
        words[i] := 0;
      }
      AllClear(words[..]);
    }

    /** Sets every bit of every word, the ones past the size too: Count gives the size afterwards
        exactly when it is a multiple of 64. */
    method SetAll()
      requires Valid()
      modifies words
      ensures forall p: nat | p < size :: p in Positions()
      ensures |Positions()| == size <==> size % 64 == 0
    {
      for i := 0 to words.Length
        invariant forall j | 0 <= j < i :: words[j] == 0xffff_ffff_ffff_ffff
      {
        words[i] := 0xffff_ffff_ffff_ffff;
      }
      AllSet(words[..]);
      SizeOfAll(Positions(), 64 * words.Length);
    }
  }
}
