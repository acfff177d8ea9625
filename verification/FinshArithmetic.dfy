/** What the arithmetic of the shell's machine means, on signed longs of 32 bits: components/finsh/finsh_ops.c:42-330.
    The results are described by the laws of integers and by single bits, and the laws leave no choice. */
module FinshArithmetic {
  import opened Division
  import opened FinshMachine
  import opened Sequences

  // ---------------------------------------------------------------- the laws

  predicate Congruent(x: int, y: int) {
    (x - y) % WORD_SPAN == 0
  }

  /** Bit k of a natural number. */
  predicate Bit(n: nat, k: nat) {
    Power2Positive(k);
    n / Power2(k) % 2 == 1
  }

  predicate Digit(w: Word, k: nat) {
    Bit(w as int, k)
  }

  /** A division that rounds towards zero leaves r: less than the divisor, and with the sign of the dividend. */
  predicate Remains(a: int, b: int, r: int) {
    Abs(r) < Abs(b) && (r == 0 || (r < 0 <==> a < 0))
  }

  /** Where C defines the operation. */
  predicate Defined(op: BinaryOp, a: Word, b: Word) {
    match op
    case Div | Mod => b != 0 && !(Signed(a) == -0x8000_0000 && Signed(b) == -1)
    case Shl | Shr => 0 <= Signed(b) < 32
    case _ => true
  }

  /** r is the result of the operation, as its law says. */
  ghost predicate Means(op: BinaryOp, a: Word, b: Word, r: Word)
    requires Defined(op, a, b)
  {
    match op
    case Add => Congruent(Signed(r), Signed(a) + Signed(b))
    case Sub => Congruent(Signed(r), Signed(a) - Signed(b))
    case Mul => Congruent(Signed(r), Signed(a) * Signed(b))
    case Div => Remains(Signed(a), Signed(b), Signed(a) - Signed(r) * Signed(b))
    case Mod => Remains(Signed(a), Signed(b), Signed(r)) && exists q: int :: Divides(a, b, q, r)
    case And => forall k: nat :: k < 32 ==> (Digit(r, k) <==> Digit(a, k) && Digit(b, k))
    case Or => forall k: nat :: k < 32 ==> (Digit(r, k) <==> Digit(a, k) || Digit(b, k))
    case Xor => forall k: nat :: k < 32 ==> (Digit(r, k) <==> (Digit(a, k) <==> !Digit(b, k)))
    case Shl => Congruent(Signed(r), Signed(a) * Power2(b as int))
    case Shr => Signed(r) * Power2(b as int) <= Signed(a) < (Signed(r) + 1) * Power2(b as int)
  }

  predicate Divides(a: Word, b: Word, q: int, r: Word) {
    q * Signed(b) + Signed(r) == Signed(a)
  }

  // ---------------------------------------------------------------- sums and products

  lemma Multiple(n: int, k: int)
    requires n == WORD_SPAN * k
    ensures n % WORD_SPAN == 0
  {
  }

  /** Wrapping and reading as signed changes a number by a multiple of 2 to the 32. */
  lemma Wrapped(x: int)
    ensures Congruent(Signed(Wrap(x)), x)
  {
    var w := x % WORD_SPAN;
    assert x == WORD_SPAN * (x / WORD_SPAN) + w;
    var k := if w < 0x8000_0000 then -(x / WORD_SPAN) else -(x / WORD_SPAN) - 1;
    assert Signed(Wrap(x)) - x == WORD_SPAN * k;
    Multiple(Signed(Wrap(x)) - x, k);
  }

  lemma CongruentTrans(x: int, y: int, z: int)
    requires Congruent(x, y) && Congruent(y, z)
    ensures Congruent(x, z)
  {
    var p, q := (x - y) / WORD_SPAN, (y - z) / WORD_SPAN;
    assert x - z == WORD_SPAN * (p + q);
    Multiple(x - z, p + q);
  }

  function Carry(a: Word): int { if a < 0x8000_0000 then 0 else 1 }

  lemma UnsignedIs(a: Word)
    ensures a as int == Signed(a) + WORD_SPAN * Carry(a)
  {
  }

  lemma SumIs(a: Word, b: Word)
    ensures Congruent(Signed(Wrap(a as int + b as int)), Signed(a) + Signed(b))
    ensures Congruent(Signed(Wrap(a as int - b as int)), Signed(a) - Signed(b))
  {
    UnsignedIs(a);
    UnsignedIs(b);
    Wrapped(a as int + b as int);
    Wrapped(a as int - b as int);
    Multiple(a as int + b as int - (Signed(a) + Signed(b)), Carry(a) + Carry(b));
    Multiple(a as int - b as int - (Signed(a) - Signed(b)), Carry(a) - Carry(b));
    hide Signed, Wrap;
    CongruentTrans(Signed(Wrap(a as int + b as int)), a as int + b as int, Signed(a) + Signed(b));
    CongruentTrans(Signed(Wrap(a as int - b as int)), a as int - b as int, Signed(a) - Signed(b));
  }

  lemma Product(x: int, s: int, y: int, t: int)
    ensures (x + WORD_SPAN * s) * (y + WORD_SPAN * t) - x * y == WORD_SPAN * (s * y + t * x + WORD_SPAN * s * t)
  {
    calc {
      (x + WORD_SPAN * s) * (y + WORD_SPAN * t);
      x * (y + WORD_SPAN * t) + (WORD_SPAN * s) * (y + WORD_SPAN * t);
      x * y + x * (WORD_SPAN * t) + (WORD_SPAN * s) * y + (WORD_SPAN * s) * (WORD_SPAN * t);
    }
  }

  lemma ProductIs(a: Word, b: Word)
    ensures Congruent(Signed(Wrap(a as int * b as int)), Signed(a) * Signed(b))
  {
    UnsignedIs(a);
    UnsignedIs(b);
    var x, y, s, t := Signed(a), Signed(b), Carry(a), Carry(b);
    var p := a as int * b as int;
    Product(x, s, y, t);
    Multiple(p - x * y, s * y + t * x + WORD_SPAN * s * t);
    Wrapped(p);
    hide Signed, Wrap;
    CongruentTrans(Signed(Wrap(p)), p, x * y);
  }

  lemma ShiftedIs(a: Word, n: nat)
    ensures Congruent(Signed(Wrap(a as int * Power2(n))), Signed(a) * Power2(n))
  {
    UnsignedIs(a);
    var p, x, c, k := Power2(n), Signed(a), Carry(a), a as int * Power2(n);
    assert (x + WORD_SPAN * c) * p - x * p == WORD_SPAN * (c * p);
    Multiple(k - x * p, c * p);
    Wrapped(k);
    hide Signed, Wrap;
    CongruentTrans(Signed(Wrap(k)), k, x * p);
  }

  // ---------------------------------------------------------------- division

  /** A number that a signed long can hold comes through. */
  lemma SmallIsKept(x: int)
    requires -0x8000_0000 <= x < 0x8000_0000
    ensures Signed(Wrap(x)) == x
  {
  }

  lemma NaturalQuotient(n: nat, d: nat)
    requires d > 0
    ensures 0 <= n / d <= n && n % d <= n && (d >= 2 ==> 2 * (n / d) <= n)
  {
    var q := n / d;
    Euclid(n, d);
    Order(1, d, q);
    Order(2, d, q);
  }

  lemma QuotientSmaller(a: int, b: int)
    requires b != 0
    ensures Abs(Quotient(a, b)) <= Abs(a) && Abs(Remainder(a, b)) <= Abs(a)
    ensures Abs(b) >= 2 ==> 2 * Abs(Quotient(a, b)) <= Abs(a)
    ensures b == 1 ==> Quotient(a, b) == a
    ensures Remains(a, b, Remainder(a, b))
  {
    NaturalQuotient(Abs(a), Abs(b));
    Euclid(Abs(a), Abs(b));
  }

  lemma DivisionIs(a: Word, b: Word)
    requires Defined(Div, a, b)
    ensures Arithmetic(Div, a, b).Some? && Means(Div, a, b, Arithmetic(Div, a, b).value)
    ensures Arithmetic(Mod, a, b).Some? && Means(Mod, a, b, Arithmetic(Mod, a, b).value)
  {
    var x, y := Signed(a), Signed(b);
    DivisionLaw(x, y);
    QuotientSmaller(x, y);
    SmallIsKept(Quotient(x, y));
    SmallIsKept(Remainder(x, y));
    var r := Arithmetic(Mod, a, b).value;
    assert Signed(r) == Remainder(x, y);
    assert Divides(a, b, Quotient(x, y), r);
  }

  // ---------------------------------------------------------------- bits

  lemma BitRest(n: nat, k: nat)
    requires k > 0
    ensures Bit(n, k) <==> Bit(n / 2, k - 1)
  {
    Power2Positive(k - 1);
    var p := Power2(k - 1);
    DivDiv(n, p);
  }

  lemma DivDiv(n: nat, p: nat)
    requires p > 0
    ensures n / (2 * p) == n / 2 / p
  {
    var h, q := n / 2, n / 2 / p;
    var r := h % p;
    assert h == q * p + r && n == 2 * h + n % 2;
    assert n == q * (2 * p) + (2 * r + n % 2);
    QuotientIs(n, 2 * p, q, 2 * r + n % 2);
  }

  /** The bits that a function working from bit to bit gives. */
  predicate Joined(op: BinaryOp, x: bool, y: bool) {
    if op.And? then x && y else if op.Or? then x || y else (x <==> !y)
  }

  lemma {:induction false} BitByBitAt(op: BinaryOp, a: nat, b: nat, n: nat, k: nat)
    requires (op.And? || op.Or? || op.Xor?) && k < n
    ensures Bit(BitByBit(op, a, b, n), k) <==> Joined(op, Bit(a, k), Bit(b, k))
  {
    var r, rest := BitByBit(op, a, b, n), BitByBit(op, a / 2, b / 2, n - 1);
    assert r / 2 == rest;
    if k == 0 {
      LowestBit(r);
      LowestBit(a);
      LowestBit(b);
    } else {
      BitRest(r, k);
      BitRest(a, k);
      BitRest(b, k);
      BitByBitAt(op, a / 2, b / 2, n - 1, k - 1);
    }
  }

  lemma LowestBit(n: nat)
    ensures Bit(n, 0) <==> n % 2 == 1
  {
    assert Power2(0) == 1;
  }

  lemma {:induction false} BitByBitBound(op: BinaryOp, a: nat, b: nat, n: nat)
    requires op.And? || op.Or? || op.Xor?
    ensures BitByBit(op, a, b, n) < Power2(n)
  {
    if n > 0 { BitByBitBound(op, a / 2, b / 2, n - 1); }
  }

  lemma SpanIsPower()
    ensures Power2(32) == WORD_SPAN
  {
    assert Power2(8) == 256;
    PowerAdd(8, 8);
    PowerAdd(16, 16);
  }

  lemma {:induction false} PowerAdd(m: nat, n: nat)
    ensures Power2(m + n) == Power2(m) * Power2(n)
  {
    if m > 0 { PowerAdd(m - 1, n); }
  }

  lemma BitsAre(op: BinaryOp, a: Word, b: Word)
    requires op.And? || op.Or? || op.Xor?
    ensures Arithmetic(op, a, b).Some?
    ensures forall k: nat :: k < 32 ==>
              (Digit(Arithmetic(op, a, b).value, k) <==> Joined(op, Digit(a, k), Digit(b, k)))
  {
    var r := BitByBit(op, a as int, b as int, 32);
    BitByBitBound(op, a as int, b as int, 32);
    SpanIsPower();
    hide BitByBit, Bit;
    assert Arithmetic(op, a, b) == Some(r as Word);
    forall k: nat | k < 32
      ensures Digit(r as Word, k) <==> Joined(op, Digit(a, k), Digit(b, k))
    {
      BitByBitAt(op, a as int, b as int, 32, k);
    }
  }

  lemma {:induction false} ComplementBit(w: nat, n: nat, k: nat)
    requires k < n && w < Power2(n)
    ensures Bit(Power2(n) - 1 - w, k) <==> !Bit(w, k)
  {
    var c := Power2(n) - 1 - w;
    if k == 0 {
      LowestBit(c);
      LowestBit(w);
    } else {
      assert c / 2 == Power2(n - 1) - 1 - w / 2;
      BitRest(c, k);
      BitRest(w, k);
      ComplementBit(w / 2, n - 1, k - 1);
    }
  }

  /** ~ turns every bit over. */
  lemma ComplementMeans(w: Word)
    ensures forall k: nat :: k < 32 ==> (Digit(Complement(w), k) <==> !Digit(w, k))
  {
    SpanIsPower();
    forall k: nat | k < 32
      ensures Digit(Complement(w), k) <==> !Digit(w, k)
    {
      ComplementBit(w as int, 32, k);
    }
  }

  // ---------------------------------------------------------------- the right shift

  lemma ShiftRightIs(a: Word, n: nat)
    ensures var r, p := Signed(ShiftRight(a, n)), Power2(n); r * p <= Signed(a) < (r + 1) * p
  {
    Power2Positive(n);
    var x, p := Signed(a), Power2(n);
    QuotientBound(x, p);
    SmallIsKept(x / p);
    Between(x, p);
  }

  lemma Between(x: int, p: int)
    requires p > 0
    ensures (x / p) * p <= x < (x / p + 1) * p
  {
    Euclid(x, p);
    var q := x / p;
    assert (q + 1) * p == q * p + p;
  }

  lemma QuotientBound(x: int, p: int)
    requires p > 0 && -0x8000_0000 <= x < 0x8000_0000
    ensures -0x8000_0000 <= x / p < 0x8000_0000
  {
    var q := x / p;
    Between(x, p);
    Times(q, p);
    Times(q + 1, p);
  }

  /** Multiplying by a positive number does not bring a number nearer to 0. */
  lemma Times(q: int, p: int)
    requires p > 0
    ensures (q >= 0 ==> q * p >= q) && (q <= 0 ==> q * p <= q)
  {
    assert q * p == q + q * (p - 1);
    if q >= 0 { assert q * (p - 1) >= 0; } else { assert q * (p - 1) <= 0; }
  }

  // ---------------------------------------------------------------- all operators

  /** Every operator gives what its law says where C defines it, and faults elsewhere. */
  lemma ArithmeticMeans(op: BinaryOp, a: Word, b: Word)
    ensures Arithmetic(op, a, b).Some? <==> Defined(op, a, b)
    ensures Arithmetic(op, a, b).Some? ==> Means(op, a, b, Arithmetic(op, a, b).value)
  {
    match op
    case Add => SumIs(a, b);
    case Sub => SumIs(a, b);
    case Mul => ProductIs(a, b);
    case Div => if Defined(op, a, b) { DivisionIs(a, b); }
    case Mod => if Defined(Div, a, b) { DivisionIs(a, b); }
    case And => BitsAre(op, a, b);
    case Or => BitsAre(op, a, b);
    case Xor => BitsAre(op, a, b);
    case Shl => if Defined(op, a, b) { ShiftedIs(a, b as int); }
    case Shr => if Defined(op, a, b) { ShiftRightIs(a, b as int); }
  }

  // ---------------------------------------------------------------- the laws leave no choice

  lemma SameWord(r: Word, s: Word, x: int)
    requires Congruent(Signed(r), x) && Congruent(Signed(s), x)
    ensures r == s
  {
    var p, q := (Signed(r) - x) / WORD_SPAN, (Signed(s) - x) / WORD_SPAN;
    assert Signed(r) - Signed(s) == WORD_SPAN * (p - q);
  }

  lemma {:induction false} SameBits(r: nat, s: nat, n: nat)
    requires r < Power2(n) && s < Power2(n) && forall k: nat :: k < n ==> (Bit(r, k) <==> Bit(s, k))
    ensures r == s
  {
    if n > 0 {
      LowestBit(r);
      LowestBit(s);
      assert Bit(r, 0) <==> Bit(s, 0);
      forall k: nat | k < n - 1
        ensures Bit(r / 2, k) <==> Bit(s / 2, k)
      {
        BitRest(r, k + 1);
        BitRest(s, k + 1);
        assert Bit(r, k + 1) <==> Bit(s, k + 1);
      }
      SameBits(r / 2, s / 2, n - 1);
    }
  }

  lemma SameDigits(r: Word, s: Word)
    requires forall k: nat :: k < 32 ==> (Digit(r, k) <==> Digit(s, k))
    ensures r == s
  {
    hide Bit;
    SpanIsPower();
    var x: nat, y: nat := r as int, s as int;
    forall k: nat | k < 32
      ensures Bit(x, k) <==> Bit(y, k)
    {
      assert Digit(r, k) <==> Digit(s, k);
    }
    SameBits(x, y, 32);
  }

  /** Two remainders of the same division are the same. */
  lemma SameRemainder(a: int, b: int, q: int, r: int, p: int, s: int)
    requires b != 0 && q * b + r == a && p * b + s == a && Remains(a, b, r) && Remains(a, b, s)
    ensures q == p && r == s
  {
    assert (q - p) * b == q * b - p * b;
    NotSmaller(q - p, b);
  }

  lemma NotSmaller(d: int, b: int)
    ensures d != 0 ==> Abs(d * b) >= Abs(b)
  {
    if d > 0 { if b >= 0 { Order(1, d, b); } else { Order(1, d, -b); assert d * -b == -(d * b); } }
    if d < 0 { if b >= 0 { Order(1, -d, b); assert -d * b == -(d * b); } else { Order(1, -d, -b); assert -d * -b == d * b; } }
  }

  lemma SignedIsOne(r: Word, s: Word)
    requires Signed(r) == Signed(s)
    ensures r == s
  {
  }

  /** So there is one result that the law allows. */
  lemma MeaningDetermines(op: BinaryOp, a: Word, b: Word, r: Word, s: Word)
    requires Defined(op, a, b) && Means(op, a, b, r) && Means(op, a, b, s)
    ensures r == s
  {
    hide Congruent, Bit, Remains, Signed;
    var x, y := Signed(a), Signed(b);
    match op
    case Add => SameWord(r, s, x + y);
    case Sub => SameWord(r, s, x - y);
    case Mul => SameWord(r, s, x * y);
    case Div =>
      NotZero(b);
      SameRemainder(x, y, Signed(r), x - Signed(r) * y, Signed(s), x - Signed(s) * y);
      SignedIsOne(r, s);
    case Mod =>
      NotZero(b);
      var q: int :| Divides(a, b, q, r);
      var p: int :| Divides(a, b, p, s);
      SameRemainder(x, y, q, Signed(r), p, Signed(s));
      SignedIsOne(r, s);
    case And => SameDigits(r, s);
    case Or => SameDigits(r, s);
    case Xor => SameDigits(r, s);
    case Shl => SameWord(r, s, x * Power2(b as int));
    case Shr =>
      Power2Positive(b as int);
      SameFloor(x, Power2(b as int), Signed(r), Signed(s));
      SignedIsOne(r, s);
  }

  lemma NotZero(b: Word)
    ensures b != 0 <==> Signed(b) != 0
  {
  }

  // ---------------------------------------------------------------- stores

  /** A store changes the four bytes at its address, and no others. */
  lemma StoreElsewhere(m: Memory, a: Word, w: Word, x: Word)
    requires Store(m, a, w).Some? && x != a && x != Next(a, 1) && x != Next(a, 2) && x != Next(a, 3)
    ensures var r := Store(m, a, w).value; r.Keys == m.Keys && (x in m ==> r[x] == m[x])
  {
    hide Dword, Next;
    assert |Dword(w)| == 4 by { DwordHasFour(w); }
  }

  /** In the code and in memory the byte of the least weight comes first. */
  lemma LowByteFirst(w: Word)
    ensures var d := Dword(w);
            |d| == 4 && w as int == d[0] as int + 0x100 * d[1] as int + 0x1_0000 * d[2] as int + 0x100_0000 * d[3] as int
  {
    JoinDword(w);
    assert w / 0x1_0000 == w / 0x100 / 0x100 && w / 0x100_0000 == w / 0x1_0000 / 0x100;
  }

  /** A store puts them at its address and the three behind it. */
  lemma StoreBytes(m: Memory, a: Word, w: Word)
    requires Store(m, a, w).Some?
    ensures var r, d := Store(m, a, w).value, Dword(w);
            && a in r && Next(a, 1) in r && Next(a, 2) in r && Next(a, 3) in r
            && [r[a], r[Next(a, 1)], r[Next(a, 2)], r[Next(a, 3)]] == d
  {
    DwordHasFour(w);
    hide Dword;
    assert a != Next(a, 1) && a != Next(a, 2) && a != Next(a, 3);
    assert Next(a, 1) != Next(a, 2) && Next(a, 1) != Next(a, 3) && Next(a, 2) != Next(a, 3);
  }

  lemma DwordHasFour(w: Word)
    ensures |Dword(w)| == 4
  {
  }
}
