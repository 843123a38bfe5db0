/** 64-bit words and the GF(2) arithmetic of the rolling hash on them. */
module Rabin {
  import opened Gf2Poly

  /** An unsigned 64-bit word: the positions of its one bits. */
  type Word = s: set<nat> | forall i :: i in s ==> i < 64

  predicate BitUp(a: Word, k: nat, j: nat)
  {
    j >= k && j - k in a
  }

  predicate BitDown(a: Word, k: nat, j: nat)
  {
    j + k in a
  }

  function Xor(a: Word, b: Word): Word
  {
    (a - b) + (b - a)
  }

  /** Shift left; bits above position 63 are lost. */
  function Shl(a: Word, k: nat): Word
  {
    set j: nat | j < 64 && BitUp(a, k, j)
  }

  function Shr(a: Word, k: nat): Word
  {
    set j: nat | j < 64 && BitDown(a, k, j)
  }

  /** The word of a number below 2^64. */
  function WordOf(n: nat): Word
  {
    if n == 0 then {} else (if n % 2 == 1 then {0} else {}) + Shl(WordOf(n / 2), 1)
  }

  /** The number given by the bits below position n. */
  function NumberOf(a: Word, n: nat): (r: nat)
    decreases n
  {
    if n == 0 then 0 else (if 0 in a then 1 else 0) + 2 * NumberOf(Shr(a, 1), n - 1)
  }

  /** Length of the word without leading zeros, looking below position n. */
  function Length(a: Word, n: nat): (r: nat)
    requires n <= 64
    ensures r <= n && (r > 0 ==> r - 1 in a) && forall j :: r <= j < n ==> j !in a
  {
    if n == 0 then 0 else if n - 1 in a then n else Length(a, n - 1)
  }

  function LeadingZeros(a: Word): nat
  {
    64 - Length(a, 64)
  }

  /** The word with ones in the n low positions. */
  function LowMask(n: nat): (r: Word)
    requires n <= 64
    ensures forall j :: j in r <==> 0 <= j < n
  {
    if n == 0 then {} else LowMask(n - 1) + {n - 1}
  }

  /** The word as a polynomial. */
  ghost function P(a: Word): Poly
  {
    iset j: nat | j in a
  }

  lemma PXor(a: Word, b: Word)
    ensures P(Xor(a, b)) == Add(P(a), P(b))
  {
  }

  lemma PShl(a: Word, k: nat)
    requires k <= 64 && Below(P(a), 64 - k)
    ensures P(Shl(a, k)) == Shift(P(a), k)
  {
    forall j: nat ensures j in P(Shl(a, k)) <==> j in Shift(P(a), k) {
      assert j >= k && j - k in P(a) ==> j < 64;
    }
  }

  lemma PShr(a: Word, k: nat)
    ensures P(Shr(a, k)) == ShiftDown(P(a), k)
  {
  }

  lemma {:induction false} PWordOf(n: nat, k: nat)
    requires n < Pow2(k) && k <= 64
    ensures P(WordOf(n)) == Bits(n) && Below(Bits(n), k)
  {
    BitsBelow(n, k);
    if n > 0 {
      PWordOf(n / 2, k - 1);
      PShl(WordOf(n / 2), 1);
    }
  }

  lemma {:induction false} PNumberOf(a: Word, n: nat)
    ensures NumberOf(a, n) == Number(P(a), n)
    decreases n
  {
    if n > 0 {
      PNumberOf(Shr(a, 1), n - 1);
      PShr(a, 1);
    }
  }

  /** The polynomial as a word. */
  function PolyWord(): Word
  {
    WordOf(POLY)
  }

  lemma PPolyWord()
    ensures P(PolyWord()) == Modulus()
  {
    hide Bits, WordOf;
    Pow53();
    PWordOf(POLY, 54);
  }

  // ---------------------------------------------------------------------
  // Reduction
  // ---------------------------------------------------------------------

  lemma WordBelow(a: Word, n: nat)
    requires forall j :: n <= j < 64 ==> j !in a
    ensures Below(P(a), n)
  {
  }

  /** One step of the reduction clears the leading bit and keeps the residue. */
  lemma ReduceStep(v: Word, top: nat, v': Word)
    requires 54 <= top < 64 && top in v && Below(P(v), top + 1) && v' == Xor(v, Shl(PolyWord(), top - 53))
    ensures Below(P(v'), top) && Congruent(P(v), P(v'))
  {
    hide Modulus, PolyWord, Bits, IsMultiple;
    ModulusDegree();
    PPolyWord();
    PShl(PolyWord(), top - 53);
    var s := Shift(Modulus(), top - 53);
    ShiftRange(Modulus(), 53, top - 53);
    PXor(v, Shl(PolyWord(), top - 53));
    ShiftedModulus(top - 54);
    AddBack(P(v), s);
    assert Below(P(v'), top) by { TopCancels(P(v), s, top); }
  }

  lemma AddBack(a: Poly, s: Poly)
    ensures Add(a, Add(a, s)) == s
  {
  }

  lemma TopCancels(a: Poly, s: Poly, top: nat)
    requires top in a && top in s && Below(a, top + 1) && Below(s, top + 1)
    ensures Below(Add(a, s), top)
  {
  }

  /** Reduces a word modulo x * POLY: the loop stops once bit 53 is the highest. */
  method ModPoly(value: Word) returns (r: Word)
    ensures P(r) == Residue(P(value), 64)
    ensures Below(P(r), 54) && Congruent(P(value), P(r))
  {
    hide Congruent, PolyWord, P, Residue;
    r := value;
    CongruentRefl(P(value));
    while LeadingZeros(r) < 10
      invariant Congruent(P(value), P(r))
      decreases Length(r, 64)
    {
      var shift := (63 - LeadingZeros(r)) - 53;
      ghost var v := r;
      ghost var top := Length(r, 64) - 1;
      WordBelow(v, top + 1);
      r := Xor(r, Shl(PolyWord(), shift));
      ReduceStep(v, top, r);
      Shorter(r, top);
      CongruentTrans(P(value), P(v), P(r));
    }
    WordBelow(r, 54);
    assert r * LowMask(54) == r by { MaskAll(r, 54); }
    r := r * LowMask(54);
    assert Below(P(value), 64) by { WordBelow(value, 64); }
    IsResidue(P(value), 64, P(r));
  }

  lemma MaskAll(a: Word, n: nat)
    requires n <= 64 && Below(P(a), n)
    ensures a * LowMask(n) == a
  {
    forall j: nat | j in a ensures j in LowMask(n) { assert j in P(a); }
  }

  lemma Shorter(a: Word, top: nat)
    requires Below(P(a), top) && top < 64
    ensures Length(a, 64) <= top
  {
    assert Length(a, 64) > 0 ==> Length(a, 64) - 1 in P(a);
  }

  // ---------------------------------------------------------------------
  // Products
  // ---------------------------------------------------------------------

  /** a * b, counting only the terms of b below n. */
  ghost function Product(a: Poly, b: Poly, n: nat): Poly
  {
    if n == 0 then iset{} else Add(Product(a, b, n - 1), Row(a, b, n - 1))
  }

  ghost function Row(a: Poly, b: Poly, k: nat): Poly
  {
    if k in b then Shift(a, k) else iset{}
  }

  /** Schoolbook multiplication from the low end. */
  lemma {:induction false} ProductLow(a: Poly, b: Poly, n: nat)
    ensures Product(a, b, n + 1) == Add(if 0 in b then a else iset{}, Product(Shift(a, 1), ShiftDown(b, 1), n))
  {
    if n == 0 {
      assert Product(a, b, 1) == Add(iset{}, Row(a, b, 0));
      assert Shift(a, 0) == a;
    } else {
      ProductLow(a, b, n - 1);
      ShiftShift(a, 1, n - 1);
      assert Row(a, b, n) == Row(Shift(a, 1), ShiftDown(b, 1), n - 1);
      AddAssoc(if 0 in b then a else iset{}, Product(Shift(a, 1), ShiftDown(b, 1), n - 1), Row(a, b, n));
    }
  }

  lemma {:induction false} ProductNone(a: Poly, b: Poly, n: nat)
    requires forall j :: 0 <= j < n ==> j !in b
    ensures Product(a, b, n) == iset{}
  {
    if n > 0 { ProductNone(a, b, n - 1); }
  }

  lemma {:induction false} ProductCongruent(a: Poly, a': Poly, b: Poly, n: nat)
    requires Congruent(a, a')
    ensures Congruent(Product(a, b, n), Product(a', b, n))
  {
    hide Congruent;
    if n == 0 {
      CongruentRefl(iset{});
    } else {
      ProductCongruent(a, a', b, n - 1);
      if n - 1 in b { CongruentShift(a, a', n - 1); } else { CongruentRefl(iset{}); }
      CongruentAdd(Product(a, b, n - 1), Product(a', b, n - 1), Row(a, b, n - 1), Row(a', b, n - 1));
    }
  }

  lemma {:induction false} ProductAdd(a: Poly, a': Poly, b: Poly, n: nat)
    ensures Product(Add(a, a'), b, n) == Add(Product(a, b, n), Product(a', b, n))
  {
    if n > 0 {
      ProductAdd(a, a', b, n - 1);
      ShiftAdd(a, a', n - 1);
      assert Row(Add(a, a'), b, n - 1) == Add(Row(a, b, n - 1), Row(a', b, n - 1));
      Interchange(Product(a, b, n - 1), Product(a', b, n - 1), Row(a, b, n - 1), Row(a', b, n - 1));
    }
  }

  lemma Interchange(a: Poly, b: Poly, c: Poly, d: Poly)
    ensures Add(Add(a, b), Add(c, d)) == Add(Add(a, c), Add(b, d))
  {
  }

  lemma {:induction false} MonomialProduct(m: nat, b: Poly, n: nat)
    ensures Product(iset{m}, b, n) == Shift(Cut(b, n), m)
  {
    if n == 0 {
      assert Shift(Cut(b, 0), m) == iset{};
    } else {
      MonomialProduct(m, b, n - 1);
      assert Row(iset{m}, b, n - 1) == (if n - 1 in b then iset{m + n - 1} else iset{});
    }
  }

  /** Multiplying by something congruent to x^p is a shift by p. */
  lemma {:induction false} MulByPower(a: Poly, b: Poly, p: nat, n: nat, m: nat)
    requires Congruent(b, iset{p}) && Below(b, n)
    ensures Congruent(Product(Cut(a, m), b, n), Shift(Cut(a, m), p))
    decreases m
  {
    hide Congruent, Product, Below;
    if m == 0 {
      assert Cut(a, 0) == iset{} && Shift(iset{}, p) == iset{};
      NoProduct(b, n);
      CongruentRefl(iset{});
    } else {
      MulByPower(a, b, p, n, m - 1);
      if m - 1 in a {
        assert Cut(a, m) == Add(Cut(a, m - 1), iset{m - 1});
        ProductAdd(Cut(a, m - 1), iset{m - 1}, b, n);
        MonomialProduct(m - 1, b, n);
        assert Cut(b, n) == b by { CutAll(b, n); }
        CongruentShift(b, iset{p}, m - 1);
        assert Shift(iset{p}, m - 1) == iset{p + m - 1} == Shift(iset{m - 1}, p);
        ShiftAdd(Cut(a, m - 1), iset{m - 1}, p);
        CongruentAdd(Product(Cut(a, m - 1), b, n), Shift(Cut(a, m - 1), p), Product(iset{m - 1}, b, n), Shift(iset{m - 1}, p));
      } else {
        assert Cut(a, m) == Cut(a, m - 1);
      }
    }
  }

  lemma CutAll(b: Poly, n: nat)
    requires Below(b, n)
    ensures Cut(b, n) == b
  {
  }

  lemma {:induction false} NoProduct(b: Poly, n: nat)
    ensures Product(iset{}, b, n) == iset{}
  {
    if n > 0 {
      NoProduct(b, n - 1);
      assert Shift(iset{}, n - 1) == iset{};
    }
  }

  /** Multiplies bit by bit, reducing the multiplicand at every step. */
  method PolyMulMod(a: Word, b: Word) returns (r: Word)
    requires Below(P(a), 54)
    ensures Congruent(P(r), Product(P(a), P(b), 64)) && Below(P(r), 54)
  {
    hide Congruent, Product, Residue, P, Shl, Shr, Xor;
    r := {};
    var x, y := a, b;
    ghost var n := 64;
    WordBelow(b, 64);
    MulStart(a, b);
    while y != {}
      invariant n <= 64 && Below(P(y), n) && Below(P(x), 54) && Below(P(r), 54)
      invariant Congruent(Add(P(r), Product(P(x), P(y), n)), Product(P(a), P(b), 64))
      decreases n
    {
      assert n > 0 by { SomeBit(y, n); }
      ghost var x0, y0, r0 := x, y, r;
      if 0 in y {
        r := Xor(r, x);
      }
      y := Shr(y, 1);
      x := ModPoly(Shl(x, 1));
      MulStep(x0, y0, r0, x, y, r, n, Product(P(a), P(b), 64));
      n := n - 1;
    }
    assert P(y) == iset{} by { NoBits(y); }
    ProductNone(P(x), P(y), n);
    AddNothing(P(r));
  }

  lemma SomeBit(y: Word, n: nat)
    requires Below(P(y), n)
    ensures y == {} || n > 0
  {
    if n == 0 {
      forall j: nat ensures j !in y { assert j in y ==> j in P(y); }
      assert y == {};
    }
  }

  lemma NoBits(y: Word)
    requires y == {}
    ensures P(y) == iset{}
  {
  }

  lemma AddNothing(r: Poly)
    ensures Add(r, iset{}) == r && Add(iset{}, r) == r
  {
  }

  lemma MulStart(a: Word, b: Word)
    ensures Below(P({}), 54) && Congruent(Add(P({}), Product(P(a), P(b), 64)), Product(P(a), P(b), 64))
  {
    hide Congruent, Product;
    NoBits({});
    AddNothing(Product(P(a), P(b), 64));
    CongruentRefl(Product(P(a), P(b), 64));
  }

  lemma MulStep(x: Word, y: Word, r: Word, x': Word, y': Word, r': Word, n: nat, goal: Poly)
    requires 0 < n <= 64 && Below(P(x), 54) && Below(P(r), 54) && Below(P(y), n)
    requires r' == (if 0 in y then Xor(r, x) else r) && y' == Shr(y, 1) && Below(P(x'), 54) && Congruent(P(Shl(x, 1)), P(x'))
    requires Congruent(Add(P(r), Product(P(x), P(y), n)), goal)
    ensures Below(P(r'), 54) && Below(P(y'), n - 1)
    ensures Congruent(Add(P(r'), Product(P(x'), P(y'), n - 1)), goal)
  {
    hide Congruent, Product;
    PShl(x, 1);
    PShr(y, 1);
    PXor(r, x);
    assert Below(P(y'), n - 1) by { LowerBelow(P(y), n); }
    assert Below(P(r'), 54) by { AddBelow(P(r), P(x), 54); }
    var low := if 0 in y then P(x) else iset{};
    var rest := Product(Shift(P(x), 1), P(y'), n - 1);
    ProductLow(P(x), P(y), n - 1);
    assert P(r') == Add(P(r), low) by { AddNothing(P(r)); }
    AddAssoc(P(r), low, rest);
    ProductCongruent(Shift(P(x), 1), P(x'), P(y'), n - 1);
    CongruentRefl(P(r'));
    CongruentAdd(P(r'), P(r'), rest, Product(P(x'), P(y'), n - 1));
    CongruentSym(Add(P(r'), rest), Add(P(r'), Product(P(x'), P(y'), n - 1)));
    CongruentTrans(Add(P(r'), Product(P(x'), P(y'), n - 1)), Add(P(r'), rest), goal);
  }

  lemma LowerBelow(a: Poly, n: nat)
    requires Below(a, n) && n > 0
    ensures Below(ShiftDown(a, 1), n - 1)
  {
    forall j | j in ShiftDown(a, 1) ensures j < n - 1 { assert Lowered(a, 1, j); }
  }

  lemma AddBelow(a: Poly, b: Poly, n: nat)
    requires Below(a, n) && Below(b, n)
    ensures Below(Add(a, b), n)
  {
  }

  /** x^e by square and multiply. */
  method PowX(e: nat) returns (r: Word)
    ensures Congruent(P(r), iset{e}) && Below(P(r), 54)
  {
    hide Congruent, Product, P, WordOf;
    r := WordOf(1);
    var base := WordOf(2);
    var k := e;
    ghost var have, step := 0, 1;
    SmallWords();
    CongruentRefl(iset{0});
    CongruentRefl(iset{1});
    while k > 0
      invariant Below(P(r), 54) && Below(P(base), 54)
      invariant Congruent(P(r), iset{have}) && Congruent(P(base), iset{step})
      invariant have + step * k == e
    {
      Halve(step, k);
      if k % 2 == 1 {
        var r' := PolyMulMod(r, base);
        MonomialsMultiply(r, base, have, step, r');
        r := r';
        have := have + step;
      }
      var base' := PolyMulMod(base, base);
      MonomialsMultiply(base, base, step, step, base');
      base := base';
      step := step + step;
      k := k / 2;
    }
  }

  lemma Halve(step: nat, k: nat)
    ensures step * k == (step + step) * (k / 2) + if k % 2 == 1 then step else 0
  {
    assert k == 2 * (k / 2) + k % 2;
    assert step * k == step * (2 * (k / 2)) + step * (k % 2);
  }

  lemma SmallWords()
    ensures P(WordOf(1)) == iset{0} && P(WordOf(2)) == iset{1}
  {
    assert WordOf(1) == {0} && WordOf(2) == {1} by {
      assert WordOf(0) == {};
      assert WordOf(1) == {0};
      assert WordOf(2) == Shl(WordOf(1), 1);
      assert BitUp({0}, 1, 1);
    }
  }

  lemma MonomialsMultiply(a: Word, b: Word, p: nat, q: nat, r: Word)
    requires Below(P(a), 54) && Congruent(P(a), iset{p}) && Congruent(P(b), iset{q}) && Congruent(P(r), Product(P(a), P(b), 64))
    ensures Congruent(P(r), iset{p + q})
  {
    hide Congruent, Product, P;
    ProductIsShift(a, b, q);
    CongruentShift(P(a), iset{p}, q);
    assert Shift(iset{p}, q) == iset{p + q};
    CongruentTrans(P(r), Product(P(a), P(b), 64), Shift(P(a), q));
    CongruentTrans(P(r), Shift(P(a), q), iset{p + q});
  }

  lemma ProductIsShift(a: Word, b: Word, q: nat)
    requires Below(P(a), 54) && Congruent(P(b), iset{q})
    ensures Congruent(Product(P(a), P(b), 64), Shift(P(a), q))
  {
    hide Congruent, Product;
    WordBelow(b, 64);
    MulByPower(P(a), P(b), q, 64, 54);
    CutAll(P(a), 54);
  }
}
