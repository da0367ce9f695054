/** Bitmaps held in a machine word. */
module Bits {

  predicate Bit(x: nat, i: nat) {
    if i == 0 then x % 2 == 1 else Bit(x / 2, i - 1)
  }

  /** x | (1 << i) */
  function SetBit(x: nat, i: nat): nat {
    if i == 0 then x / 2 * 2 + 1 else x % 2 + 2 * SetBit(x / 2, i - 1)
  }

  /** x & ~(1 << i) */
  function ClearBit(x: nat, i: nat): nat {
    if i == 0 then x / 2 * 2 else x % 2 + 2 * ClearBit(x / 2, i - 1)
  }

  lemma LowBit(b: nat, h: nat)
    requires b < 2
    ensures (b + 2 * h) % 2 == b && (b + 2 * h) / 2 == h
  {
  }

  lemma {:induction false} SetBitBits(x: nat, i: nat, j: nat)
    ensures Bit(SetBit(x, i), j) <==> j == i || Bit(x, j)
    decreases i, j
  {
    if i > 0 && j > 0 {
      SetBitBits(x / 2, i - 1, j - 1);
      LowBit(x % 2, SetBit(x / 2, i - 1));
    } else if i > 0 {
      LowBit(x % 2, SetBit(x / 2, i - 1));
    } else {
      LowBit(1, x / 2);
    }
  }

  lemma {:induction false} ClearBitBits(x: nat, i: nat, j: nat)
    ensures Bit(ClearBit(x, i), j) <==> j != i && Bit(x, j)
    decreases i, j
  {
    if i > 0 && j > 0 {
      ClearBitBits(x / 2, i - 1, j - 1);
      LowBit(x % 2, ClearBit(x / 2, i - 1));
    } else if i > 0 {
      LowBit(x % 2, ClearBit(x / 2, i - 1));
    } else {
      LowBit(0, x / 2);
    }
  }

  /** The position of the lowest set bit. */
  function Lowest(x: nat): (i: nat)
    requires x > 0
    ensures Bit(x, i) && forall j: nat :: j < i ==> !Bit(x, j)
  {
    if x % 2 == 1 then 0
    else
      var i := 1 + Lowest(x / 2);
      assert forall j: nat :: 0 < j < i ==> Bit(x, j) == Bit(x / 2, j - 1);
      i
  }

  /** lowest_bit_index. */
  method LowestBitIndex(x: nat) returns (idx: nat)
    requires x > 0
    ensures idx == Lowest(x)
  {
    var y := x;
    idx := 0;
    while y % 2 == 0
      invariant y > 0 && idx + Lowest(y) == Lowest(x)
      decreases y
    {
      y := y / 2;
      idx := idx + 1;
    }
  }

  lemma {:induction false} ClearLess(x: nat, i: nat)
    ensures Bit(x, i) ==> ClearBit(x, i) < x
  {
    if i > 0 {
      ClearLess(x / 2, i - 1);
    }
  }

  /** The set bits in ascending order. */
  function Ascending(x: nat): seq<nat>
    decreases x
  {
    if x == 0 then []
    else
      ClearLess(x, Lowest(x));
      [Lowest(x)] + Ascending(ClearBit(x, Lowest(x)))
  }

  lemma {:induction false} ZeroHasNoBits(i: nat)
    ensures !Bit(0, i)
  {
    if i > 0 {
      ZeroHasNoBits(i - 1);
    }
  }

  /** Ascending lists every set bit once, smallest first. */
  lemma {:induction false} AscendingBits(x: nat)
    ensures forall i: nat :: i in Ascending(x) <==> Bit(x, i)
    ensures forall a, b :: 0 <= a < b < |Ascending(x)| ==> Ascending(x)[a] < Ascending(x)[b]
    decreases x
  {
    if x == 0 {
      forall i: nat ensures !Bit(0, i) { ZeroHasNoBits(i); }
    } else {
      var l := Lowest(x);
      var y := ClearBit(x, l);
      ClearLess(x, l);
      AscendingBits(y);
      forall i: nat ensures Bit(y, i) <==> i != l && Bit(x, i) { ClearBitBits(x, l, i); }
      var rest := Ascending(y);
      forall b | 0 <= b < |rest| ensures l < rest[b] {
        assert rest[b] in rest;
      }
    }
  }
}
