/** The unsigned 64-bit word with one bit per priority: a number below 2^64 whose bits
    are tested, set and cleared one at a time, and the branch-and-shift search for its
    lowest set bit. */
module Bitmap {

  function Pow2(n: nat): nat {
    if n == 0 then 1 else 2 * Pow2(n - 1)
  }

  type Word = w: nat | w < 0x1_0000_0000_0000_0000

  /** w & (1 << p) != 0 */
  predicate Bit(w: nat, p: nat) {
    if p == 0 then w % 2 == 1 else Bit(w / 2, p - 1)
  }

  /** w | (1 << p), below 2^n when w is and p < n */
  function SetBit(w: nat, p: nat, n: nat): (r: nat)
    requires p < n && w < Pow2(n)
    ensures r < Pow2(n)
  {
    if p == 0 then w / 2 * 2 + 1 else 2 * SetBit(w / 2, p - 1, n - 1) + w % 2
  }

  /** w & ~(1 << p) */
  function ClearBit(w: nat, p: nat): (r: nat)
    ensures r <= w
  {
    if p == 0 then w / 2 * 2 else 2 * ClearBit(w / 2, p - 1) + w % 2
  }

  lemma {:induction false} SetBitBits(w: nat, p: nat, n: nat, q: nat)
    requires p < n && w < Pow2(n)
    ensures Bit(SetBit(w, p, n), q) <==> q == p || Bit(w, q)
  {
    if p > 0 && q > 0 { SetBitBits(w / 2, p - 1, n - 1, q - 1); }
  }

  lemma {:induction false} ClearBitBits(w: nat, p: nat, q: nat)
    ensures Bit(ClearBit(w, p), q) <==> q != p && Bit(w, q)
  {
    if p > 0 && q > 0 { ClearBitBits(w / 2, p - 1, q - 1); }
  }

  /** A word that is not zero has a bit set. */
  lemma {:induction false} SomeBit(w: nat, n: nat) returns (p: nat)
    requires 0 < w < Pow2(n)
    ensures p < n && Bit(w, p)
  {
    if w % 2 == 1 {
      p := 0;
    } else {
      p := SomeBit(w / 2, n - 1);
      p := p + 1;
    }
  }

  lemma {:induction false} NoBit(p: nat)
    ensures !Bit(0, p)
  {
    if p > 0 { NoBit(p - 1); }
  }

  lemma {:induction false} Pow2Sum(a: nat, b: nat)
    ensures Pow2(a + b) == Pow2(a) * Pow2(b)
  {
    if b > 0 { Pow2Sum(a, b - 1); }
  }

  // ----- The search -----

  ghost predicate LowestBit(w: nat, p: nat) {
    Bit(w, p) && forall q: nat :: q < p ==> !Bit(w, q)
  }

  /** The number of times `w` can be halved. */
  function Low(w: nat): nat
    requires w > 0
  {
    if w % 2 == 1 then 0 else 1 + Low(w / 2)
  }

  lemma {:induction false} LowIsLowest(w: nat, n: nat)
    requires 0 < w < Pow2(n)
    ensures LowestBit(w, Low(w)) && Low(w) < n
  {
    if w % 2 == 0 {
      LowIsLowest(w / 2, n - 1);
      forall q: nat | q < Low(w)
        ensures !Bit(w, q)
      {
        if q > 0 { assert !Bit(w / 2, q - 1); }
      }
    }
  }

  lemma Low1(w: nat)
    requires w > 0
    ensures w % 2 == 0 <==> Low(w) >= 1
    ensures w % 2 == 0 ==> w / 2 > 0 && Low(w / 2) == Low(w) - 1
  {
  }

  lemma Low2(w: nat)
    requires w > 0
    ensures w % 4 == 0 <==> Low(w) >= 2
    ensures w % 4 == 0 ==> w / 4 > 0 && Low(w / 4) == Low(w) - 2
  {
    Low1(w);
    if w % 2 == 0 { Low1(w / 2); }
  }

  lemma Split4(w: nat)
    ensures w % 0x10 == w % 4 + 4 * (w / 4 % 4) && w / 4 / 4 == w / 0x10
  {
  }

  lemma Low4(w: nat)
    requires w > 0
    ensures w % 0x10 == 0 <==> Low(w) >= 4
    ensures w % 0x10 == 0 ==> w / 0x10 > 0 && Low(w / 0x10) == Low(w) - 4
  {
    Low2(w);
    Split4(w);
    if w % 4 == 0 { Low2(w / 4); }
  }

  lemma Split8(w: nat)
    ensures w % 0x100 == w % 0x10 + 0x10 * (w / 0x10 % 0x10) && w / 0x10 / 0x10 == w / 0x100
  {
  }

  lemma Low8(w: nat)
    requires w > 0
    ensures w % 0x100 == 0 <==> Low(w) >= 8
    ensures w % 0x100 == 0 ==> w / 0x100 > 0 && Low(w / 0x100) == Low(w) - 8
  {
    Low4(w);
    Split8(w);
    if w % 0x10 == 0 { Low4(w / 0x10); }
  }

  lemma Split16(w: nat)
    ensures w % 0x1_0000 == w % 0x100 + 0x100 * (w / 0x100 % 0x100) && w / 0x100 / 0x100 == w / 0x1_0000
  {
  }

  lemma Low16(w: nat)
    requires w > 0
    ensures w % 0x1_0000 == 0 <==> Low(w) >= 16
    ensures w % 0x1_0000 == 0 ==> w / 0x1_0000 > 0 && Low(w / 0x1_0000) == Low(w) - 16
  {
    Low8(w);
    Split16(w);
    if w % 0x100 == 0 { Low8(w / 0x100); }
  }

  lemma Split32(w: nat)
    ensures w % 0x1_0000_0000 == w % 0x1_0000 + 0x1_0000 * (w / 0x1_0000 % 0x1_0000) && w / 0x1_0000 / 0x1_0000 == w / 0x1_0000_0000
  {
  }

  lemma Low32(w: nat)
    requires w > 0
    ensures w % 0x1_0000_0000 == 0 <==> Low(w) >= 32
    ensures w % 0x1_0000_0000 == 0 ==> w / 0x1_0000_0000 > 0 && Low(w / 0x1_0000_0000) == Low(w) - 32
  {
    Low16(w);
    Split32(w);
    if w % 0x1_0000 == 0 { Low16(w / 0x1_0000); }
  }

  lemma WordBound()
    ensures Pow2(64) == 0x1_0000_0000_0000_0000
  {
    assert Pow2(4) == 0x10;
    Pow2Sum(4, 4);
    assert Pow2(8) == 0x100;
    Pow2Sum(8, 8);
    assert Pow2(16) == 0x1_0000;
    Pow2Sum(16, 16);
    assert Pow2(32) == 0x1_0000_0000;
    Pow2Sum(32, 32);
  }

  lemma LowWord(word: Word)
    requires word > 0
    ensures LowestBit(word, Low(word)) && Low(word) < 64
  {
    WordBound();
    LowIsLowest(word, 64);
  }

  /** The lowest set bit of a non-zero word. */
  method LeadingZeroes(word: Word) returns (count: nat)
    requires word != 0
    ensures count < 64 && LowestBit(word, count)
  {
    LowWord(word);
    if word % 2 == 1 {
      return 0;
    }
    var bitmap: nat := word;
    count := 1;
    Low32(bitmap);
    if bitmap % 0x1_0000_0000 == 0 {
      bitmap := bitmap / 0x1_0000_0000;
      count := count + 32;
    }
    assert Low(word) == count - 1 + Low(bitmap) && Low(bitmap) < 32;
    Low16(bitmap);
    if bitmap % 0x1_0000 == 0 {
      bitmap := bitmap / 0x1_0000;
      count := count + 16;
    }
    assert Low(word) == count - 1 + Low(bitmap) && Low(bitmap) < 16;
    Low8(bitmap);
    if bitmap % 0x100 == 0 {
      bitmap := bitmap / 0x100;
      count := count + 8;
    }
    assert Low(word) == count - 1 + Low(bitmap) && Low(bitmap) < 8;
    Low4(bitmap);
    if bitmap % 0x10 == 0 {
      bitmap := bitmap / 0x10;
      count := count + 4;
    }
    assert Low(word) == count - 1 + Low(bitmap) && Low(bitmap) < 4;
    Low2(bitmap);
    if bitmap % 4 == 0 {
      bitmap := bitmap / 4;
      count := count + 2;
    }
    assert Low(word) == count - 1 + Low(bitmap) && Low(bitmap) < 2;
    count := count - bitmap % 2;
  }
}
