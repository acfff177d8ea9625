/** The first set bit of a word: __rt_ffs of src/kservice.c. Words are numbers, and shifts and masks
    are divisions and remainders by powers of two. */
module Ffs {

  /** Bit i of v. */
  predicate HasBit(v: nat, i: nat) {
    if i == 0 then v % 2 == 1 else HasBit(v / 2, i - 1)
  }

  /** v | 1 << i, and v & ~(1 << i). */
  function SetBit(v: nat, i: nat): nat {
    if i == 0 then v / 2 * 2 + 1 else SetBit(v / 2, i - 1) * 2 + v % 2
  }

  function ClearBit(v: nat, i: nat): nat {
    if i == 0 then v / 2 * 2 else ClearBit(v / 2, i - 1) * 2 + v % 2
  }

  lemma {:induction false} HasSetBit(v: nat, i: nat, j: nat)
    ensures HasBit(SetBit(v, i), j) <==> i == j || HasBit(v, j)
  {
    if i > 0 && j > 0 { HasSetBit(v / 2, i - 1, j - 1); }
  }

  lemma {:induction false} HasClearedBit(v: nat, i: nat, j: nat)
    ensures HasBit(ClearBit(v, i), j) <==> i != j && HasBit(v, j)
  {
    if i > 0 && j > 0 { HasClearedBit(v / 2, i - 1, j - 1); }
  }

  /** The low k bits of v, and the others. */
  function Low(v: nat, k: nat): nat { if k == 0 then 0 else Low(v / 2, k - 1) * 2 + v % 2 }

  function High(v: nat, k: nat): nat { if k == 0 then v else High(v / 2, k - 1) }

  lemma {:induction false} LowBit(v: nat, k: nat, i: nat)
    ensures HasBit(Low(v, k), i) <==> i < k && HasBit(v, i)
  {
    if k > 0 && i > 0 { LowBit(v / 2, k - 1, i - 1); }
    if k == 0 { NoBit(i); }
  }

  lemma {:induction false} NoBit(i: nat)
    ensures !HasBit(0, i)
  {
    if i > 0 { NoBit(i - 1); }
  }

  lemma {:induction false} HighBit(v: nat, k: nat, i: nat)
    ensures HasBit(v, i + k) <==> HasBit(High(v, k), i)
  {
    if k > 0 { HighBit(v / 2, k - 1, i); }
  }

  lemma LowHighIs(v: nat, k: nat)
    ensures k > 0 ==> High(v, k) == High(v / 2, k - 1) && Low(v, k) == Low(v / 2, k - 1) * 2 + v % 2 && Pow2(k) == 2 * Pow2(k - 1)
    ensures High(v, 0) == v && Low(v, 0) == 0 && Pow2(0) == 1
  {
  }

  lemma Doubled(h: nat, n: nat)
    ensures h * (2 * n) == 2 * (h * n)
  {
  }

  lemma {:induction false} LowHigh(v: nat, k: nat, m: nat)
    requires m == Pow2(k)
    ensures v == High(v, k) * m + Low(v, k) && Low(v, k) < m
  {
    if k > 0 {
      hide Low, High, Pow2;
      var h, l, n := High(v / 2, k - 1), Low(v / 2, k - 1), Pow2(k - 1);
      LowHigh(v / 2, k - 1, n);
      LowHighIs(v, k);
      Doubled(h, n);
      assert v == 2 * (v / 2) + v % 2;
    } else {
      LowHighIs(v, k);
    }
  }

  function Pow2(k: nat): (m: nat)
    ensures m > 0
  {
    if k == 0 then 1 else 2 * Pow2(k - 1)
  }

  /** A byte and the rest of a word. */
  lemma ByteIs(v: nat)
    ensures Low(v, 8) == v % 256 && High(v, 8) == v / 256
  {
    assert Pow2(1) == 2 && Pow2(2) == 4 && Pow2(3) == 8 && Pow2(4) == 16;
    assert Pow2(5) == 32 && Pow2(6) == 64 && Pow2(7) == 128 && Pow2(8) == 256;
    LowHigh(v, 8, 256);
  }

  /** The lowest set bit. */
  function Lowest(v: nat): (k: nat)
    requires v > 0
    ensures HasBit(v, k) && forall i :: 0 <= i < k ==> !HasBit(v, i)
  {
    if v % 2 == 1 then 0
    else
      var k := Lowest(v / 2);
      assert forall i :: 1 <= i <= k ==> (HasBit(v, i) <==> HasBit(v / 2, i - 1));
      k + 1
  }

  /** A row of the table: all rows are alike but for their first entry. */
  function Row(first: nat): (row: seq<nat>)
    ensures |row| == 16
  {
    [first, 0, 1, 0, 2, 0, 1, 0, 3, 0, 1, 0, 2, 0, 1, 0]
  }

  /** __lowest_bit_bitmap, by its rows of 16. */
  function TableRow(r: nat): (row: seq<nat>)
    ensures |row| == 16
  {
    match r
    case 0 => Row(0)
    case 1 => Row(4)
    case 2 => Row(5)
    case 3 => Row(4)
    case 4 => Row(6)
    case 5 => Row(4)
    case 6 => Row(5)
    case 7 => Row(4)
    case 8 => Row(7)
    case 9 => Row(4)
    case 10 => Row(5)
    case 11 => Row(4)
    case 12 => Row(6)
    case 13 => Row(4)
    case 14 => Row(5)
    case _ => Row(4)
  }

  function LowestBitmap(b: nat): nat {
    TableRow(b / 16)[b % 16]
  }

  lemma NibbleIs(v: nat)
    ensures Low(v, 4) == v % 16 && High(v, 4) == v / 16
  {
    assert Pow2(1) == 2 && Pow2(2) == 4 && Pow2(3) == 8 && Pow2(4) == 16;
    LowHigh(v, 4, 16);
  }

  lemma LowestOfNibble(v: nat)
    requires v > 0
    ensures Lowest(v) == if v % 16 > 0 then Lowest(v % 16) else 4 + Lowest(v / 16)
  {
    hide Lowest, Low, High;
    NibbleIs(v);
    if v % 16 > 0 { LowestOfLow(v, 4); } else { LowestOfHigh(v, 4); }
  }

  lemma LowestOfSmall(c: nat)
    requires 0 < c < 16
    ensures Lowest(c) == Row(0)[c]
  {
  }

  /** The table is right. */
  lemma TableIsLowest(b: nat)
    requires 0 < b < 256
    ensures LowestBitmap(b) == Lowest(b)
  {
    hide Lowest, TableRow;
    var r, c := b / 16, b % 16;
    LowestOfNibble(b);
    if c > 0 { LowestOfSmall(c); RowTail(r, c); }
    else { LowestOfSmall(r); RowHead(r); }
  }

  lemma RowTail(r: nat, c: nat)
    requires r < 16 && 0 < c < 16
    ensures TableRow(r)[c] == Row(0)[c]
  {
    hide TableRow, Row;
    var first := RowIs(r);
    RowsAlike(first, c);
  }

  lemma RowIs(r: nat) returns (first: nat)
    ensures TableRow(r) == Row(first)
  {
    hide Row;
    first := match r
      case 0 => 0
      case 1 | 3 | 5 | 7 | 9 | 11 | 13 => 4
      case 2 | 6 | 10 | 14 => 5
      case 4 | 12 => 6
      case 8 => 7
      case _ => 4;
  }

  lemma RowsAlike(first: nat, c: nat)
    requires 0 < c < 16
    ensures Row(first)[c] == Row(0)[c]
  {
  }

  lemma RowHead(r: nat)
    requires 0 < r < 16
    ensures TableRow(r)[0] == 4 + Row(0)[r]
  {
  }

  /** __rt_ffs, of a 32-bit word. */
  function FindFirstSet(v: nat): nat {
    if v == 0 then 0
    else if v % 256 != 0 then LowestBitmap(v % 256) + 1
    else if v / 256 % 256 != 0 then LowestBitmap(v / 256 % 256) + 9
    else if v / 256 / 256 % 256 != 0 then LowestBitmap(v / 256 / 256 % 256) + 17
    else LowestBitmap(v / 256 / 256 / 256 % 256) + 25
  }

  lemma LowestOfByte(v: nat)
    requires v > 0
    ensures Lowest(v) == if v % 256 != 0 then Lowest(v % 256) else 8 + Lowest(v / 256)
  {
    hide Lowest, Low, High;
    ByteIs(v);
    if v % 256 != 0 { LowestOfLow(v, 8); } else { LowestOfHigh(v, 8); }
  }

  lemma {:induction false} LowestOfLow(v: nat, k: nat)
    requires v > 0 && Low(v, k) > 0
    ensures Lowest(v) == Lowest(Low(v, k))
  {
    if k > 0 && v % 2 == 0 {
      assert Low(v, k) / 2 == Low(v / 2, k - 1);
      LowestOfLow(v / 2, k - 1);
    }
  }

  lemma {:induction false} LowestOfHigh(v: nat, k: nat)
    requires v > 0 && Low(v, k) == 0
    ensures High(v, k) > 0 && Lowest(v) == k + Lowest(High(v, k))
  {
    if k > 0 { LowestOfHigh(v / 2, k - 1); }
  }

  /** It finds the lowest set bit, counting from 1, and 0 only in 0. */
  lemma FindsFirstSet(v: nat)
    requires v < 0x1_0000_0000
    ensures v == 0 <==> FindFirstSet(v) == 0
    ensures v > 0 ==> FindFirstSet(v) == Lowest(v) + 1
  {
    hide Lowest, LowestBitmap;
    var w, x, y := v / 256, v / 256 / 256, v / 256 / 256 / 256;
    assert y < 256;
    if v % 256 != 0 {
      LowestOfByte(v);
      TableIsLowest(v % 256);
    } else if w % 256 != 0 {
      LowestOfByte(v);
      LowestOfByte(w);
      TableIsLowest(w % 256);
    } else if x % 256 != 0 {
      LowestOfByte(v);
      LowestOfByte(w);
      LowestOfByte(x);
      TableIsLowest(x % 256);
    } else if v > 0 {
      LowestOfByte(v);
      LowestOfByte(w);
      LowestOfByte(x);
      TableIsLowest(y);
    }
  }

  // ---------------------------------------------------------------- words as sets of bits

  /** The numbers of the bits of v. */
  function Bits(v: nat): set<nat> {
    set i: nat | i <= v && HasBit(v, i)
  }

  lemma {:induction false} BitIsBelow(v: nat, i: nat)
    requires HasBit(v, i)
    ensures i < v
  {
    if i > 0 { BitIsBelow(v / 2, i - 1); }
  }

  lemma InBits(v: nat, i: nat)
    ensures i in Bits(v) <==> HasBit(v, i)
  {
    if HasBit(v, i) { BitIsBelow(v, i); }
  }

  lemma BitsOfSet(v: nat, i: nat)
    ensures Bits(SetBit(v, i)) == Bits(v) + {i}
  {
    hide Bits, HasBit, SetBit;
    forall j: nat
      ensures j in Bits(SetBit(v, i)) <==> j in Bits(v) + {i}
    {
      InBits(SetBit(v, i), j);
      InBits(v, j);
      HasSetBit(v, i, j);
    }
  }

  lemma BitsOfClear(v: nat, i: nat)
    ensures Bits(ClearBit(v, i)) == Bits(v) - {i}
  {
    hide Bits, HasBit, ClearBit;
    forall j: nat
      ensures j in Bits(ClearBit(v, i)) <==> j in Bits(v) - {i}
    {
      InBits(ClearBit(v, i), j);
      InBits(v, j);
      HasClearedBit(v, i, j);
    }
  }

  lemma LowestInBits(v: nat)
    requires v > 0
    ensures Lowest(v) in Bits(v) && forall i <- Bits(v) :: Lowest(v) <= i
  {
    InBits(v, Lowest(v));
    forall i | i in Bits(v)
      ensures Lowest(v) <= i
    {
      InBits(v, i);
    }
  }

  lemma NoBits(v: nat)
    ensures v == 0 <==> Bits(v) == {}
  {
    if v > 0 { LowestInBits(v); }
    else { forall i: nat ensures i !in Bits(v) { InBits(v, i); NoBit(i); } }
  }

  lemma BitsBound(v: nat, k: nat)
    requires forall i <- Bits(v) :: i < k
    ensures v < Pow2(k)
  {
    LowHigh(v, k, Pow2(k));
    if High(v, k) > 0 {
      var i := Lowest(High(v, k));
      HighBit(v, k, i);
      InBits(v, i + k);
    }
  }

  lemma Pow2Of32()
    ensures Pow2(32) == 0x1_0000_0000
  {
    assert Pow2(8) == 256;
    assert Pow2(16) == 0x1_0000;
    assert Pow2(24) == 0x100_0000;
  }

  /** What __rt_ffs finds, in a word of 32 bits. */
  lemma FindsLowestOfBits(v: nat)
    requires forall i <- Bits(v) :: i < 32
    ensures if Bits(v) == {} then FindFirstSet(v) == 0
            else FindFirstSet(v) - 1 in Bits(v) && forall i <- Bits(v) :: FindFirstSet(v) - 1 <= i
  {
    Pow2Of32();
    BitsBound(v, 32);
    NoBits(v);
    FindsFirstSet(v);
    if v > 0 { LowestInBits(v); }
  }
}
