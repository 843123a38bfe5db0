/** Polynomials over GF(2), as sets of exponents, and division by x * POLY. */
module Gf2Poly {

  type Poly = iset<nat>

  ghost function Add(a: Poly, b: Poly): Poly
  {
    iset j: nat | (j in a) != (j in b)
  }

  ghost predicate Lifted(a: Poly, k: nat, j: nat)
  {
    j >= k && j - k in a
  }

  ghost predicate Lowered(a: Poly, k: nat, j: nat)
  {
    j + k in a
  }

  /** Multiplication by x^k. */
  ghost function Shift(a: Poly, k: nat): Poly
  {
    iset j: nat | Lifted(a, k, j)
  }

  ghost function ShiftDown(a: Poly, k: nat): Poly
  {
    iset j: nat | Lowered(a, k, j)
  }

  ghost predicate Below(a: Poly, n: nat)
  {
    forall j :: j in a ==> j < n
  }

  lemma AddAssoc(a: Poly, b: Poly, c: Poly)
    ensures Add(Add(a, b), c) == Add(a, Add(b, c))
  {
  }

  lemma ShiftAdd(a: Poly, b: Poly, k: nat)
    ensures Shift(Add(a, b), k) == Add(Shift(a, k), Shift(b, k))
  {
  }

  lemma ShiftShift(a: Poly, j: nat, k: nat)
    ensures Shift(Shift(a, j), k) == Shift(a, j + k)
  {
  }

  lemma ShiftRange(a: Poly, top: nat, k: nat)
    requires top in a && Below(a, top + 1)
    ensures top + k in Shift(a, k) && Below(Shift(a, k), top + k + 1)
  {
    assert Lifted(a, k, top + k);
  }

  // ---------------------------------------------------------------------
  // Numbers and polynomials
  // ---------------------------------------------------------------------

  function Pow2(k: nat): (r: nat)
    ensures r > 0
  {
    if k == 0 then 1 else 2 * Pow2(k - 1)
  }

  /** The one bits of a number. */
  ghost function Bits(n: nat): Poly
  {
    if n == 0 then iset{} else (if n % 2 == 1 then iset{0} else iset{}) + Shift(Bits(n / 2), 1)
  }

  lemma {:induction false} BitsBelow(n: nat, k: nat)
    requires n < Pow2(k)
    ensures Below(Bits(n), k)
  {
    if n > 0 { BitsBelow(n / 2, k - 1); }
  }

  lemma {:induction false} TopBit(n: nat, k: nat)
    requires Pow2(k) <= n < Pow2(k + 1)
    ensures k in Bits(n)
  {
    if k > 0 { TopBit(n / 2, k - 1); }
  }

  /** The number with the given bits below position n. */
  ghost function Number(a: Poly, n: nat): (r: nat)
    ensures r < Pow2(n)
    decreases n
  {
    if n == 0 then 0 else (if 0 in a then 1 else 0) + 2 * Number(ShiftDown(a, 1), n - 1)
  }

  lemma {:induction false} BitsOfNumber(a: Poly, n: nat)
    requires Below(a, n)
    ensures Bits(Number(a, n)) == a
    decreases n
  {
    if n > 0 {
      var rest := ShiftDown(a, 1);
      assert Below(rest, n - 1) by {
        forall j | j in rest ensures j < n - 1 { assert j + 1 in a; }
      }
      BitsOfNumber(rest, n - 1);
      var m := Number(a, n);
      assert m / 2 == Number(rest, n - 1);
      assert a == (if 0 in a then iset{0} else iset{}) + Shift(rest, 1);
    }
  }

  // ---------------------------------------------------------------------
  // Byte strings as polynomials
  // ---------------------------------------------------------------------

  newtype Byte = x: int | 0 <= x < 256

  /** Big-endian: the first byte has the highest weight. */
  ghost function OfBytes(w: seq<Byte>): Poly
  {
    if w == [] then iset{} else Add(Shift(OfBytes(w[..|w| - 1]), 8), Bits(w[|w| - 1] as int))
  }

  lemma ByteBits(b: Byte)
    ensures Below(Bits(b as int), 8)
  {
    assert Pow2(8) == 256;
    BitsBelow(b as int, 8);
  }

  lemma {:induction false} OfBytesBelow(w: seq<Byte>)
    ensures Below(OfBytes(w), 8 * |w|)
    decreases |w|
  {
    if w != [] {
      OfBytesBelow(w[..|w| - 1]);
      ByteBits(w[|w| - 1]);
    }
  }

  /** The first byte can be split off instead of the last. */
  lemma {:induction false} FirstByte(w: seq<Byte>)
    requires w != []
    ensures OfBytes(w) == Add(Shift(Bits(w[0] as int), 8 * (|w| - 1)), OfBytes(w[1..]))
    decreases |w|
  {
    if |w| == 1 {
      assert w[..0] == [] && w[1..] == [];
    } else {
      var init := w[..|w| - 1];
      FirstByte(init);
      assert init[1..] == w[1..][..|w| - 2];
      var hi := Shift(Bits(w[0] as int), 8 * (|init| - 1));
      ShiftAdd(hi, OfBytes(init[1..]), 8);
      ShiftShift(Bits(w[0] as int), 8 * (|init| - 1), 8);
      AddAssoc(Shift(hi, 8), Shift(OfBytes(init[1..]), 8), Bits(w[|w| - 1] as int));
    }
  }

  lemma LastByte(w: seq<Byte>, b: Byte)
    ensures OfBytes(w + [b]) == Add(Shift(OfBytes(w), 8), Bits(b as int))
  {
    assert (w + [b])[..|w|] == w;
  }

  /** Sliding a window by one byte. */
  lemma Slide(w: seq<Byte>, b: Byte)
    requires w != []
    ensures OfBytes(w[1..] + [b]) == Add(Add(Shift(OfBytes(w), 8), Bits(b as int)), Shift(Bits(w[0] as int), 8 * |w|))
  {
    hide Shift, Add, Bits, OfBytes;
    var rest := OfBytes(w[1..]);
    var hi := Shift(Bits(w[0] as int), 8 * (|w| - 1));
    FirstByte(w);
    ShiftAdd(hi, rest, 8);
    ShiftShift(Bits(w[0] as int), 8 * (|w| - 1), 8);
    LastByte(w[1..], b);
    Cancel(Shift(hi, 8), Shift(rest, 8), Bits(b as int));
  }

  lemma Cancel(a: Poly, r: Poly, b: Poly)
    ensures Add(Add(Add(a, r), b), a) == Add(r, b)
  {
  }

  // ---------------------------------------------------------------------
  // The modulus
  // ---------------------------------------------------------------------

  const POLY: nat := 0x3D_A335_8B4D_C173

  /** The polynomial of degree 53 whose coefficients are the bits of POLY. */
  ghost function Modulus(): Poly
  {
    Bits(POLY)
  }

  lemma {:induction false} Pow2Sum(a: nat, b: nat)
    ensures Pow2(a + b) == Pow2(a) * Pow2(b)
    decreases a
  {
    if a > 0 { Pow2Sum(a - 1, b); }
  }

  lemma Pow53()
    ensures Pow2(53) == 0x20_0000_0000_0000 && Pow2(54) == 0x40_0000_0000_0000
  {
    assert Pow2(9) == 512;
    Pow2Sum(9, 9);
    Pow2Sum(18, 9);
    Pow2Sum(27, 27);
  }

  lemma ModulusDegree()
    ensures 53 in Modulus() && Below(Modulus(), 54)
  {
    hide Bits, Pow2;
    Pow53();
    TopBit(POLY, 53);
    BitsBelow(POLY, 54);
  }

  ghost function Term(m: Poly, n: nat): Poly
    requires n > 0
  {
    if n - 1 in m then Shift(Modulus(), n) else iset{}
  }

  /** m * x * POLY, counting only the terms of m below n. */
  ghost function Multiple(m: Poly, n: nat): Poly
  {
    if n == 0 then iset{} else Add(Multiple(m, n - 1), Term(m, n))
  }

  ghost predicate IsMultiple(p: Poly)
  {
    exists m: Poly, n: nat :: p == Multiple(m, n)
  }

  ghost predicate Congruent(a: Poly, b: Poly)
  {
    IsMultiple(Add(a, b))
  }

  /** A multiple is zero or has degree 54 or more. */
  lemma {:induction false} MultipleDegree(m: Poly, n: nat)
    ensures Below(Multiple(m, n), n + 54)
    ensures Multiple(m, n) == iset{} || exists j :: j in Multiple(m, n) && j >= 54
  {
    hide Modulus;
    if n > 0 {
      ModulusDegree();
      MultipleDegree(m, n - 1);
      if n - 1 in m {
        assert n + 53 in Shift(Modulus(), n);
        assert n + 53 in Multiple(m, n);
      } else {
        assert Multiple(m, n) == Multiple(m, n - 1);
      }
    }
  }

  lemma SmallMultiple(p: Poly)
    requires IsMultiple(p) && Below(p, 54)
    ensures p == iset{}
  {
    hide Modulus;
    var m: Poly, n: nat :| p == Multiple(m, n);
    MultipleDegree(m, n);
  }

  ghost function Cut(m: Poly, n: nat): Poly
  {
    iset i: nat | i in m && i < n
  }

  lemma {:induction false} MultiplePad(m: Poly, n: nat, k: nat)
    requires n <= k
    ensures Multiple(m, n) == Multiple(Cut(m, n), k)
    decreases k
  {
    hide Modulus;
    var m' := Cut(m, n);
    if k > n {
      MultiplePad(m, n, k - 1);
      assert k - 1 !in m';
    } else if n > 0 {
      SameMultiple(m, m', n);
    }
  }

  lemma {:induction false} SameMultiple(m: Poly, m': Poly, n: nat)
    requires forall i :: 0 <= i < n ==> (i in m <==> i in m')
    ensures Multiple(m, n) == Multiple(m', n)
  {
    hide Modulus;
    if n > 0 { SameMultiple(m, m', n - 1); }
  }

  lemma {:induction false} MultipleAdd(m: Poly, m': Poly, n: nat)
    ensures Multiple(Add(m, m'), n) == Add(Multiple(m, n), Multiple(m', n))
  {
    hide Modulus;
    if n > 0 {
      MultipleAdd(m, m', n - 1);
      var a, b := Multiple(m, n - 1), Multiple(m', n - 1);
      var s, s' := Term(m, n), Term(m', n);
      assert Term(Add(m, m'), n) == Add(s, s');
      assert Add(Add(a, s), Add(b, s')) == Add(Add(a, b), Add(s, s'));
    }
  }

  lemma {:induction false} MultipleShift(m: Poly, n: nat, k: nat)
    ensures Multiple(Shift(m, k), n + k) == Shift(Multiple(m, n), k)
    decreases n
  {
    hide Modulus;
    if n == 0 {
      NoTerms(Shift(m, k), k);
    } else {
      MultipleShift(m, n - 1, k);
      var s := Term(m, n);
      ShiftAdd(Multiple(m, n - 1), s, k);
      ShiftShift(Modulus(), n, k);
      assert Term(Shift(m, k), n + k) == Shift(s, k);
    }
  }

  lemma {:induction false} NoTerms(m: Poly, n: nat)
    requires forall i :: i in m ==> i >= n
    ensures Multiple(m, n) == iset{}
  {
    hide Modulus;
    if n > 0 { NoTerms(m, n - 1); }
  }

  lemma SumOfMultiples(p: Poly, q: Poly)
    requires IsMultiple(p) && IsMultiple(q)
    ensures IsMultiple(Add(p, q))
  {
    hide Modulus;
    var m: Poly, n: nat :| p == Multiple(m, n);
    var m': Poly, n': nat :| q == Multiple(m', n');
    var k := if n <= n' then n' else n;
    MultiplePad(m, n, k);
    MultiplePad(m', n', k);
    MultipleAdd(Cut(m, n), Cut(m', n'), k);
  }

  lemma ShiftedMultiple(p: Poly, k: nat)
    requires IsMultiple(p)
    ensures IsMultiple(Shift(p, k))
  {
    hide Modulus;
    var m: Poly, n: nat :| p == Multiple(m, n);
    MultipleShift(m, n, k);
  }

  lemma ShiftedModulus(k: nat)
    ensures IsMultiple(Shift(Modulus(), k + 1))
  {
    hide Modulus;
    var m := iset{k};
    NoTerms(m, k);
    assert Multiple(m, k + 1) == Shift(Modulus(), k + 1);
  }

  // ---------------------------------------------------------------------
  // Congruence
  // ---------------------------------------------------------------------

  lemma CongruentRefl(a: Poly)
    ensures Congruent(a, a)
  {
    hide Modulus;
    assert Add(a, a) == Multiple(iset{}, 0);
  }

  lemma CongruentSym(a: Poly, b: Poly)
    requires Congruent(a, b)
    ensures Congruent(b, a)
  {
    hide Modulus;
    assert Add(a, b) == Add(b, a);
  }

  lemma CongruentTrans(a: Poly, b: Poly, c: Poly)
    requires Congruent(a, b) && Congruent(b, c)
    ensures Congruent(a, c)
  {
    hide Modulus;
    SumOfMultiples(Add(a, b), Add(b, c));
    assert Add(Add(a, b), Add(b, c)) == Add(a, c);
  }

  lemma CongruentAdd(a: Poly, b: Poly, c: Poly, d: Poly)
    requires Congruent(a, b) && Congruent(c, d)
    ensures Congruent(Add(a, c), Add(b, d))
  {
    hide Modulus;
    SumOfMultiples(Add(a, b), Add(c, d));
    assert Add(Add(a, b), Add(c, d)) == Add(Add(a, c), Add(b, d));
  }

  lemma CongruentShift(a: Poly, b: Poly, k: nat)
    requires Congruent(a, b)
    ensures Congruent(Shift(a, k), Shift(b, k))
  {
    hide Modulus;
    ShiftedMultiple(Add(a, b), k);
    ShiftAdd(a, b, k);
  }

  /** A residue of degree below 54 is unique. */
  lemma ResidueUnique(a: Poly, b: Poly)
    requires Congruent(a, b) && Below(a, 54) && Below(b, 54)
    ensures a == b
  {
    hide Modulus;
    SmallMultiple(Add(a, b));
    forall j: nat ensures j in a <==> j in b { assert j !in Add(a, b); }
  }

  /** Long division, bit by bit from position n - 1 down: the remainder modulo x * POLY. */
  ghost function Residue(p: Poly, n: nat): Poly
  {
    if n <= 54 then p
    else if n - 1 in p then Residue(Add(p, Shift(Modulus(), n - 54)), n - 1)
    else Residue(p, n - 1)
  }

  lemma {:induction false} ResidueIsRemainder(p: Poly, n: nat)
    requires Below(p, n)
    ensures Below(Residue(p, n), 54) && Congruent(p, Residue(p, n))
    decreases n
  {
    hide Modulus;
    if n <= 54 {
      CongruentRefl(p);
    } else if n - 1 in p {
      ModulusDegree();
      var s := Shift(Modulus(), n - 54);
      var q := Add(p, s);
      assert Below(q, n - 1) by {
        assert n - 1 in s && Below(s, n);
      }
      ResidueIsRemainder(q, n - 1);
      ShiftedModulus(n - 55);
      assert Add(p, q) == s;
      CongruentTrans(p, q, Residue(p, n));
    } else {
      ResidueIsRemainder(p, n - 1);
    }
  }

  /** Anything small and congruent to p is its residue. */
  lemma IsResidue(p: Poly, n: nat, r: Poly)
    requires Below(p, n) && Below(r, 54) && Congruent(p, r)
    ensures r == Residue(p, n)
  {
    hide Modulus;
    ResidueIsRemainder(p, n);
    CongruentSym(p, r);
    CongruentTrans(r, p, Residue(p, n));
    ResidueUnique(r, Residue(p, n));
  }
}
