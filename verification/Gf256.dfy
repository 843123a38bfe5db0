/** GF(2^8): a byte is the polynomial over GF(2) whose coefficients are its
    bits.  Addition is exclusive or; multiplication is polynomial multiplication
    modulo x^8 + x^4 + x^3 + x^2 + 1 (0x11D).  This file shows that the bytes are
    a field generated by 2. */
module Gf256 {
  import opened SetSizes

  datatype Elem = Elem(bits: bv8)

  const ZERO := Elem(0)
  const ONE := Elem(1)

  function Add(a: Elem, b: Elem): Elem { Elem(a.bits ^ b.bits) }

  /** b · x: the bit shifted out stands for x^8, which is x^4 + x^3 + x^2 + 1. */
  function Double(b: Elem): Elem
  {
    var carry := b.bits >> 7;
    Elem((b.bits << 1) ^ carry ^ (carry << 2) ^ (carry << 3) ^ (carry << 4))
  }

  predicate Odd(a: Elem) { a.bits & 1 == 1 }

  function Half(a: Elem): (h: Elem)
    ensures a != ZERO ==> h.bits < a.bits
  {
    Elem(a.bits >> 1)
  }

  /** The product a · b, term by term of a. */
  function Mul(a: Elem, b: Elem): Elem
    decreases a.bits
  {
    if a == ZERO then ZERO else Add(if Odd(a) then b else ZERO, Mul(Half(a), Double(b)))
  }

  /** b · x^n. */
  function Shift(n: nat, b: Elem): Elem
  {
    if n == 0 then b else Double(Shift(n - 1, b))
  }

  // ---------------------------------------------------------------------
  // Addition
  // ---------------------------------------------------------------------

  lemma AddAssoc(a: Elem, b: Elem, c: Elem)
    ensures Add(Add(a, b), c) == Add(a, Add(b, c))
  {
  }

  lemma AddComm(a: Elem, b: Elem)
    ensures Add(a, b) == Add(b, a)
  {
  }

  lemma AddSelf(a: Elem)
    ensures Add(a, a) == ZERO
  {
  }

  lemma AddZero(a: Elem)
    ensures Add(a, ZERO) == a && Add(ZERO, a) == a
  {
  }

  lemma AddSwap(a: Elem, b: Elem, c: Elem, d: Elem)
    ensures Add(Add(a, b), Add(c, d)) == Add(Add(a, c), Add(b, d))
  {
  }

  /** Adding the same element twice changes nothing. */
  lemma AddCancel(a: Elem, b: Elem)
    ensures Add(Add(a, b), b) == a
    ensures Add(a, b) == ZERO ==> a == b
  {
    hide *;
    AddAssoc(a, b, b);
    AddSelf(b);
    AddZero(a);
    AddZero(b);
  }

  // ---------------------------------------------------------------------
  // Multiplication is bilinear and commutes with doubling
  // ---------------------------------------------------------------------

  lemma DoubleAdd(a: Elem, b: Elem)
    ensures Double(Add(a, b)) == Add(Double(a), Double(b))
  {
  }

  lemma OddAdd(a: Elem, b: Elem)
    ensures Odd(Add(a, b)) <==> Odd(a) != Odd(b)
  {
    assert (a.bits ^ b.bits) & 1 == (a.bits & 1) ^ (b.bits & 1);
    assert a.bits & 1 == 0 || a.bits & 1 == 1;
    assert b.bits & 1 == 0 || b.bits & 1 == 1;
  }

  lemma HalfAdd(a: Elem, b: Elem)
    ensures Half(Add(a, b)) == Add(Half(a), Half(b))
  {
  }

  lemma MulZero(b: Elem)
    ensures Mul(ZERO, b) == ZERO
  {
  }

  lemma MulUnfold(a: Elem, b: Elem)
    ensures Mul(a, b) == Add(if Odd(a) then b else ZERO, Mul(Half(a), Double(b)))
  {
    if a == ZERO {
      assert Half(a) == ZERO && !Odd(a);
      AddZero(ZERO);
    }
  }

  lemma {:induction false} MulAddRight(a: Elem, b: Elem, c: Elem)
    ensures Mul(a, Add(b, c)) == Add(Mul(a, b), Mul(a, c))
    decreases a.bits
  {
    hide *;
    AddZero(ZERO);
    if a == ZERO {
      MulZero(b);
      MulZero(c);
      MulZero(Add(b, c));
    } else {
      MulAddRight(Half(a), Double(b), Double(c));
      DoubleAdd(b, c);
      MulUnfold(a, b);
      MulUnfold(a, c);
      MulUnfold(a, Add(b, c));
      AddSwap(if Odd(a) then b else ZERO, Mul(Half(a), Double(b)), if Odd(a) then c else ZERO, Mul(Half(a), Double(c)));
    }
  }

  lemma {:induction false} MulAddLeft(a: Elem, b: Elem, c: Elem)
    ensures Mul(Add(a, b), c) == Add(Mul(a, c), Mul(b, c))
    decreases a.bits
  {
    hide *;
    AddZero(ZERO);
    if a == ZERO {
      MulZero(c);
      AddZero(b);
      AddZero(Mul(b, c));
    } else {
      MulAddLeft(Half(a), Half(b), Double(c));
      HalfAdd(a, b);
      OddAdd(a, b);
      AddZero(c);
      AddSelf(c);
      MulUnfold(a, c);
      MulUnfold(b, c);
      MulUnfold(Add(a, b), c);
      AddSwap(if Odd(a) then c else ZERO, Mul(Half(a), Double(c)), if Odd(b) then c else ZERO, Mul(Half(b), Double(c)));
    }
  }

  lemma {:induction false} MulDoubleRight(a: Elem, b: Elem)
    ensures Mul(a, Double(b)) == Double(Mul(a, b))
    decreases a.bits
  {
    hide *;
    DoubleZero();
    if a == ZERO {
      MulZero(b);
      MulZero(Double(b));
    } else {
      MulDoubleRight(Half(a), Double(b));
      MulUnfold(a, b);
      MulUnfold(a, Double(b));
      DoubleAdd(if Odd(a) then b else ZERO, Mul(Half(a), Double(b)));
    }
  }

  lemma DoubleZero()
    ensures Double(ZERO) == ZERO
  {
  }

  /** b · x^k for k up to 4, in one step: the k bits shifted out are reduced together. */
  function Shifted(k: bv8, b: Elem): Elem
    requires 0 < k <= 4
  {
    var carry := b.bits >> (8 - k);
    Elem((b.bits << k) ^ carry ^ (carry << 2) ^ (carry << 3) ^ (carry << 4))
  }

  lemma ShiftedSteps(b: Elem)
    ensures Shifted(1, b) == Double(b)
    ensures Shifted(2, b) == Double(Shifted(1, b))
    ensures Shifted(3, b) == Double(Shifted(2, b))
    ensures Shifted(4, b) == Double(Shifted(3, b))
  {
  }

  lemma EighthPower(b: Elem)
    ensures Shifted(4, Shifted(4, b)) == Add(Add(b, Shifted(2, b)), Add(Shifted(3, b), Shifted(4, b)))
  {
  }

  lemma LowHalves()
    ensures Half(Elem(0x1D)) == Elem(0x0E) && Half(Elem(0x0E)) == Elem(0x07) && Half(Elem(0x07)) == Elem(0x03)
    ensures Half(Elem(0x03)) == ONE && Half(ONE) == ZERO
    ensures Odd(Elem(0x1D)) && !Odd(Elem(0x0E)) && Odd(Elem(0x07)) && Odd(Elem(0x03)) && Odd(ONE)
  {
  }

  lemma HighHalves()
    ensures Half(Elem(0x80)) == Elem(0x40) && Half(Elem(0x40)) == Elem(0x20) && Half(Elem(0x20)) == Elem(0x10)
    ensures Half(Elem(0x10)) == Elem(0x08) && Half(Elem(0x08)) == Elem(0x04) && Half(Elem(0x04)) == Elem(0x02)
    ensures Half(Elem(0x02)) == ONE && Half(ONE) == ZERO && Odd(ONE)
    ensures forall b :: b in [0x80, 0x40, 0x20, 0x10, 0x08, 0x04, 0x02] ==> !Odd(Elem(b))
  {
  }

  lemma MulOne(b: Elem)
    ensures Mul(ONE, b) == b
  {
    hide *;
    LowHalves();
    MulUnfold(ONE, b);
    MulZero(Double(b));
    AddZero(b);
  }

  lemma MulEven(a: Elem, b: Elem)
    requires !Odd(a)
    ensures Mul(a, b) == Mul(Half(a), Double(b))
  {
    hide *;
    MulUnfold(a, b);
    AddZero(Mul(Half(a), Double(b)));
  }

  /** Multiplying by 0x1D, the remainder of x^8. */
  lemma MulRemainder(b: Elem)
    ensures Mul(Elem(0x1D), b) == Add(b, Add(Double(Double(b)), Add(Double(Double(Double(b))), Double(Double(Double(Double(b)))))))
  {
    hide *;
    LowHalves();
    var b1 := Double(b);
    var b2 := Double(b1);
    var b3 := Double(b2);
    MulUnfold(Elem(0x1D), b);
    MulEven(Elem(0x0E), b1);
    MulUnfold(Elem(0x07), b2);
    MulUnfold(Elem(0x03), b3);
    MulOne(Double(b3));
  }

  /** Multiplying by the top bit is seven doublings. */
  lemma MulTop(b: Elem)
    ensures Mul(Elem(0x80), b) == Double(Double(Double(Double(Double(Double(Double(b)))))))
  {
    hide *;
    HighHalves();
    var b1 := Double(b);
    var b2 := Double(b1);
    var b3 := Double(b2);
    var b4 := Double(b3);
    var b5 := Double(b4);
    var b6 := Double(b5);
    assert Elem(0x80) == Elem([0x80, 0x40, 0x20, 0x10, 0x08, 0x04, 0x02][0]);
    MulEven(Elem(0x80), b);
    MulEven(Elem(0x40), b1);
    MulEven(Elem(0x20), b2);
    MulEven(Elem(0x10), b3);
    MulEven(Elem(0x08), b4);
    MulEven(Elem(0x04), b5);
    MulEven(Elem(0x02), b6);
    MulOne(Double(b6));
  }

  lemma Reduction(b: Elem)
    ensures Mul(Elem(0x1D), b) == Mul(Elem(0x80), Double(b))
  {
    hide *;
    MulRemainder(b);
    MulTop(Double(b));
    ShiftedSteps(b);
    ShiftedSteps(Shifted(4, b));
    EighthPower(b);
    AddAssoc(b, Shifted(2, b), Add(Shifted(3, b), Shifted(4, b)));
  }

  lemma SplitTop(a: Elem)
    returns (low: Elem)
    ensures !Odd(Double(low)) && Half(Double(low)) == low
    ensures (a == low && Double(a) == Double(low)) || (a == Add(low, Elem(0x80)) && Double(a) == Add(Double(low), Elem(0x1D)))
  {
    low := Elem(a.bits & 0x7F);
    assert low.bits >> 7 == 0;
    if a.bits >> 7 == 0 {
      assert a == low;
    } else {
      assert a.bits >> 7 == 1;
    }
  }

  lemma MulDoubleLeft(a: Elem, b: Elem)
    ensures Mul(Double(a), b) == Double(Mul(a, b))
  {
    hide *;
    var low := SplitTop(a);
    MulEven(Double(low), b);
    MulDoubleRight(a, b);
    if a != low {
      MulAddLeft(Double(low), Elem(0x1D), b);
      MulAddLeft(low, Elem(0x80), Double(b));
      Reduction(b);
    }
  }

  lemma {:induction false} ShiftMul(n: nat, a: Elem, b: Elem)
    ensures Mul(Shift(n, a), b) == Shift(n, Mul(a, b))
  {
    hide Double, Mul;
    if n > 0 {
      ShiftMul(n - 1, a, b);
      MulDoubleLeft(Shift(n - 1, a), b);
    }
  }

  lemma {:induction false} ShiftAdd(m: nat, n: nat, b: Elem)
    ensures Shift(m + n, b) == Shift(m, Shift(n, b))
  {
    hide Double;
    if m > 0 { ShiftAdd(m - 1, n, b); }
  }

  /** 2^m · 2^n = 2^(m + n). */
  lemma PowerAdd(m: nat, n: nat)
    ensures Mul(Shift(m, ONE), Shift(n, ONE)) == Shift(m + n, ONE)
  {
    hide *;
    ShiftMul(m, ONE, Shift(n, ONE));
    MulOne(Shift(n, ONE));
    ShiftAdd(m, n, ONE);
  }

  // ---------------------------------------------------------------------
  // 2 generates every nonzero byte
  // ---------------------------------------------------------------------

  /** The square of b, which is linear in the bits of b. */
  function Square(b: Elem): Elem
  {
    Elem(((0 - ((b.bits >> 0) & 1)) & 0x1) ^
         ((0 - ((b.bits >> 1) & 1)) & 0x4) ^
         ((0 - ((b.bits >> 2) & 1)) & 0x10) ^
         ((0 - ((b.bits >> 3) & 1)) & 0x40) ^
         ((0 - ((b.bits >> 4) & 1)) & 0x1d) ^
         ((0 - ((b.bits >> 5) & 1)) & 0x74) ^
         ((0 - ((b.bits >> 6) & 1)) & 0xcd) ^
         ((0 - ((b.bits >> 7) & 1)) & 0x13))
  }

  lemma SquareDouble(b: Elem)
    ensures Square(Double(b)) == Double(Double(Square(b)))
  {
  }

  lemma {:induction false} SquarePower(n: nat)
    ensures Square(Shift(n, ONE)) == Shift(2 * n, ONE)
  {
    if n == 0 {
      assert Square(ONE) == ONE;
    } else {
      hide Double, Square;
      SquarePower(n - 1);
      SquareDouble(Shift(n - 1, ONE));
    }
  }

  lemma PowerEven(n: nat)
    ensures Shift(2 * n, ONE) == Square(Shift(n, ONE))
    ensures Shift(2 * n + 1, ONE) == Double(Square(Shift(n, ONE)))
  {
    hide Double, Square;
    SquarePower(n);
    assert Shift(2 * n + 1, ONE) == Double(Shift(2 * n, ONE));
  }

  ghost predicate Period(d: nat) { Shift(d, ONE) == ONE }

  /** 2^255 = 1. */
  lemma FullPeriod()
    ensures Period(255) && !Period(15)
  {
    assert Shift(0, ONE) == ONE;
    PowerEven(0);
    PowerEven(1);
    PowerEven(3);
    PowerEven(7);
    assert Shift(15, ONE) == Elem(0x26);
    PowerEven(15);
    assert Shift(31, ONE) == Elem(0xC0);
    PowerEven(31);
    assert Shift(63, ONE) == Elem(0xA1);
    PowerEven(63);
    assert Shift(127, ONE) == Elem(0xCC);
    PowerEven(127);
  }

  lemma NotPeriod51()
    ensures !Period(51)
  {
    assert Shift(0, ONE) == ONE;
    PowerEven(0);
    PowerEven(1);
    PowerEven(3);
    PowerEven(6);
    assert Shift(12, ONE) == Elem(0xCD);
    PowerEven(12);
    PowerEven(25);
    assert Shift(51, ONE) == Elem(0x0A);
  }

  lemma NotPeriod85()
    ensures !Period(85)
  {
    assert Shift(0, ONE) == ONE;
    PowerEven(0);
    PowerEven(1);
    PowerEven(2);
    PowerEven(5);
    assert Shift(10, ONE) == Elem(0x74);
    PowerEven(10);
    assert Shift(21, ONE) == Elem(0x75);
    PowerEven(21);
    PowerEven(42);
    assert Shift(85, ONE) == Elem(0xD6);
  }

  lemma {:induction false} PeriodMultiple(d: nat, m: nat)
    requires Period(d)
    ensures Period(d * m)
  {
    hide Double;
    if m > 0 {
      PeriodMultiple(d, m - 1);
      assert d * m == d * (m - 1) + d;
      ShiftAdd(d * (m - 1), d, ONE);
    }
  }

  /** Euclid's algorithm on periods. */
  lemma {:induction false} CommonPeriod(d: nat, e: nat) returns (g: nat, p: nat, q: nat)
    requires d > 0 && e > 0 && Period(d) && Period(e)
    ensures g > 0 && Period(g) && d == g * p && e == g * q
    decreases d + e
  {
    hide Double;
    if d == e {
      g, p, q := d, 1, 1;
    } else if d < e {
      ShiftAdd(e - d, d, ONE);
      g, p, q := CommonPeriod(d, e - d);
      q := p + q;
    } else {
      ShiftAdd(d - e, e, ONE);
      g, p, q := CommonPeriod(d - e, e);
      p := p + q;
    }
  }

  lemma DivisorsOf255(g: nat, q: nat)
    requires g * q == 255 && q > 1
    ensures 15 % g == 0 || 51 % g == 0 || 85 % g == 0
  {
    if q <= 15 {
      assert q == 3 || q == 5 || q == 15 by {
        assert q != 2 && q != 4 && q != 6 && q != 7 && q != 8 && q != 9 && q != 10 && q != 11 && q != 12 && q != 13 && q != 14;
      }
    } else {
      assert g < 16;
      assert g in {1, 3, 5, 15} by {
        assert g != 0 && g != 2 && g != 4 && g != 6 && g != 7 && g != 8 && g != 9 && g != 10 && g != 11 && g != 12 && g != 13 && g != 14;
      }
    }
  }

  lemma NoShortPeriod(d: nat)
    requires 0 < d < 255
    ensures !Period(d)
  {
    hide *;
    if Period(d) {
      FullPeriod();
      NotPeriod51();
      NotPeriod85();
      var g, p, q := CommonPeriod(d, 255);
      assert p >= 1 && q > 1;
      DivisorsOf255(g, q);
      var m := if 15 % g == 0 then 15 else if 51 % g == 0 then 51 else 85;
      assert m == g * (m / g);
      PeriodMultiple(g, m / g);
    }
  }

  lemma PowersDiffer(i: nat, j: nat)
    requires i < j < 255
    ensures Shift(i, ONE) != Shift(j, ONE)
  {
    hide *;
    ShiftAdd(255 - j, i, ONE);
    ShiftAdd(255 - j, j, ONE);
    FullPeriod();
    NoShortPeriod(255 - j + i);
    PeriodMeans(255);
    PeriodMeans(255 - j + i);
  }

  lemma PeriodMeans(d: nat)
    ensures Period(d) <==> Shift(d, ONE) == ONE
  {
  }

  /** The byte as a number. */
  function Num(b: Elem): (n: nat)
    ensures n < 256
  {
    b.bits as int
  }

  lemma NumInjective(a: Elem, b: Elem)
    requires Num(a) == Num(b)
    ensures a == b
  {
    assert (a.bits as int) as bv8 == a.bits;
    assert (b.bits as int) as bv8 == b.bits;
  }

  /** The first n powers of 2, as numbers. */
  ghost function Powers(n: nat): set<int>
  {
    if n == 0 then {} else Powers(n - 1) + {Num(Shift(n - 1, ONE))}
  }

  lemma {:induction false} PowerOf(n: nat, v: int) returns (i: nat)
    requires v in Powers(n)
    ensures i < n && Num(Shift(i, ONE)) == v
  {
    hide Shift, Num;
    if v == Num(Shift(n - 1, ONE)) { i := n - 1; } else { i := PowerOf(n - 1, v); }
  }

  lemma {:induction false} PowersSize(n: nat)
    requires n <= 255
    ensures |Powers(n)| == n
    ensures forall v :: v in Powers(n) ==> 1 <= v < 256
  {
    hide Shift, Num;
    if n > 0 {
      PowersSize(n - 1);
      var v := Num(Shift(n - 1, ONE));
      PowerNonzero(n - 1);
      if v in Powers(n - 1) {
        var i := PowerOf(n - 1, v);
        PowersDiffer(i, n - 1);
        NumInjective(Shift(i, ONE), Shift(n - 1, ONE));
      }
    }
  }

  lemma DoubleNonzero(b: Elem)
    requires b != ZERO
    ensures Double(b) != ZERO
  {
  }

  lemma {:induction false} PowerNonzero(n: nat)
    ensures Shift(n, ONE) != ZERO && Num(Shift(n, ONE)) != 0
  {
    hide Double, Num;
    if n > 0 {
      PowerNonzero(n - 1);
      DoubleNonzero(Shift(n - 1, ONE));
    }
    NumZero(Shift(n, ONE));
  }

  lemma NumZero(b: Elem)
    ensures Num(b) == 0 ==> b == ZERO
  {
    if Num(b) == 0 { NumInjective(b, ZERO); }
  }

  /** Every nonzero byte is a power of 2 below 2^255. */
  lemma LogExists(b: Elem) returns (i: nat)
    requires b != ZERO
    ensures i < 255 && Shift(i, ONE) == b
  {
    hide *;
    PowersSize(255);
    NumZero(b);
    if Num(b) !in Powers(255) {
      BoundedSet(Powers(255) + {Num(b)}, 1, 256);
      assert false;
    }
    i := PowerOf(255, Num(b));
    NumInjective(Shift(i, ONE), b);
  }

  lemma LogExistsAs(b: Elem)
    requires b != ZERO
    ensures exists i: nat :: i < 255 && Shift(i, ONE) == b
  {
    hide *;
    var i := LogExists(b);
  }

  ghost function Log(b: Elem): (i: nat)
    requires b != ZERO
    ensures i < 255 && Shift(i, ONE) == b
  {
    LogExistsAs(b);
    var i: nat :| i < 255 && Shift(i, ONE) == b;
    i
  }

  ghost function Inv(a: Elem): Elem
    requires a != ZERO
  {
    Shift(255 - Log(a), ONE)
  }

  // ---------------------------------------------------------------------
  // The field laws
  // ---------------------------------------------------------------------

  lemma MulZeroRight(a: Elem)
    ensures Mul(a, ZERO) == ZERO
  {
    hide *;
    AddZero(ZERO);
    MulAddRight(a, ZERO, ZERO);
    AddSelf(Mul(a, ZERO));
  }

  lemma MulComm(a: Elem, b: Elem)
    ensures Mul(a, b) == Mul(b, a)
  {
    hide *;
    MulZero(a);
    MulZero(b);
    MulZeroRight(a);
    MulZeroRight(b);
    if a != ZERO && b != ZERO {
      PowerAdd(Log(a), Log(b));
      PowerAdd(Log(b), Log(a));
    }
  }

  lemma MulAssoc(a: Elem, b: Elem, c: Elem)
    ensures Mul(Mul(a, b), c) == Mul(a, Mul(b, c))
  {
    hide *;
    MulZero(b);
    MulZero(c);
    MulZero(Mul(b, c));
    if a != ZERO {
      var i := Log(a);
      ShiftMul(i, ONE, b);
      ShiftMul(i, b, c);
      ShiftMul(i, ONE, Mul(b, c));
      MulOne(b);
      MulOne(Mul(b, c));
    }
  }

  lemma MulInv(a: Elem)
    requires a != ZERO
    ensures Mul(a, Inv(a)) == ONE && Mul(Inv(a), a) == ONE
  {
    hide Mul, Shift;
    PowerAdd(Log(a), 255 - Log(a));
    FullPeriod();
    MulComm(a, Inv(a));
  }

  lemma NoZeroDivisors(a: Elem, b: Elem)
    requires a != ZERO && Mul(a, b) == ZERO
    ensures b == ZERO
  {
    hide *;
    MulAssoc(Inv(a), a, b);
    MulInv(a);
    MulOne(b);
    MulZeroRight(Inv(a));
  }
}
