/** Rows of powers at distinct points are independent: a polynomial with as many
    distinct roots as coefficients is zero. */
module Vandermonde {
  import opened Gf256
  import opened LinearAlgebra

  /** The value of the polynomial p[0] + p[1] x + ... at a. */
  function Eval(p: Vec, a: Elem): Elem
  {
    if p == [] then ZERO else Add(p[0], Mul(a, Eval(p[1..], a)))
  }

  /** [1, a, a^2, ...], each power obtained from the one before. */
  function PowerRow(a: Elem, k: nat): (row: Vec)
    ensures |row| == k
  {
    if k == 0 then []
    else if k == 1 then [ONE]
    else PowerRow(a, k - 1) + [Mul(PowerRow(a, k - 1)[k - 2], a)]
  }

  lemma {:induction false} PowerRowPrefix(a: Elem, k: nat, j: nat)
    requires j <= k
    ensures PowerRow(a, k)[..j] == PowerRow(a, j)
    decreases k
  {
    if j < k {
      PowerRowPrefix(a, k - 1, j);
      assert PowerRow(a, k)[..j] == PowerRow(a, k - 1)[..j];
    } else {
      assert PowerRow(a, k)[..k] == PowerRow(a, k);
    }
  }

  ghost function Pow(a: Elem, n: nat): Elem
  {
    if n == 0 then ONE else Mul(a, Pow(a, n - 1))
  }

  lemma {:induction false} PowerRowAt(a: Elem, k: nat, i: nat)
    requires i < k
    ensures PowerRow(a, k)[i] == Pow(a, i)
    decreases k
  {
    hide Mul;
    if i < k - 1 {
      PowerRowAt(a, k - 1, i);
    } else if k > 1 {
      PowerRowAt(a, k - 1, i - 1);
      MulComm(Pow(a, i - 1), a);
    }
  }

  lemma {:induction false} EvalSnoc(p: Vec, c: Elem, a: Elem)
    ensures Eval(p + [c], a) == Add(Eval(p, a), Mul(Pow(a, |p|), c))
    decreases |p|
  {
    hide Add, Mul;
    if p == [] {
      assert p + [c] == [c];
      assert [c][1..] == [];
      MulZeroRight(a);
      AddZero(c);
      MulOne(c);
    } else {
      assert (p + [c])[1..] == p[1..] + [c];
      EvalSnoc(p[1..], c, a);
      MulAddRight(a, Eval(p[1..], a), Mul(Pow(a, |p| - 1), c));
      MulAssoc(a, Pow(a, |p| - 1), c);
      AddAssoc(p[0], Mul(a, Eval(p[1..], a)), Mul(Pow(a, |p|), c));
    }
  }

  /** A row of powers evaluates the polynomial. */
  lemma {:induction false} RowEvaluates(a: Elem, x: Vec)
    ensures Dot(PowerRow(a, |x|), x) == Eval(x, a)
    decreases |x|
  {
    hide Add, Mul;
    if x != [] {
      var n := |x| - 1;
      RowEvaluates(a, x[..n]);
      PowerRowPrefix(a, |x|, n);
      PowerRowAt(a, |x|, n);
      EvalSnoc(x[..n], x[n], a);
      assert x[..n] + [x[n]] == x;
    }
  }

  /** The quotient of p by (x - a). */
  function Quotient(p: Vec, a: Elem): (q: Vec)
    ensures |q| == if p == [] then 0 else |p| - 1
  {
    if |p| <= 1 then [] else [Eval(p[1..], a)] + Quotient(p[1..], a)
  }

  lemma {:induction false} Division(p: Vec, a: Elem, b: Elem)
    ensures Eval(p, b) == Add(Mul(Add(b, a), Eval(Quotient(p, a), b)), Eval(p, a))
    decreases |p|
  {
    hide Add, Mul;
    var s := Add(b, a);
    MulZeroRight(s);
    MulZeroRight(a);
    MulZeroRight(b);
    if p == [] {
      AddZero(ZERO);
    } else if |p| == 1 {
      assert p[1..] == [];
      AddZero(p[0]);
    } else {
      DivisionStep(p[0], p[1..], a, b);
      Division(p[1..], a, b);
      assert Quotient(p, a)[1..] == Quotient(p[1..], a);
    }
  }

  /** c + b·p'(b), when p'(b) = (b + a)·v + w, is (b + a)·(w + b·v) + (c + a·w). */
  lemma DivisionStep(c: Elem, t: Vec, a: Elem, b: Elem)
    ensures var v := Eval(Quotient(t, a), b);
      var w := Eval(t, a);
      var s := Add(b, a);
      Add(c, Mul(b, Add(Mul(s, v), w))) == Add(Mul(s, Add(w, Mul(b, v))), Add(c, Mul(a, w)))
  {
    var v := Eval(Quotient(t, a), b);
    var w := Eval(t, a);
    hide *;
    var s := Add(b, a);
    var bsv := Mul(b, Mul(s, v));
    MulAddRight(b, Mul(s, v), w);
    MulAddRight(s, w, Mul(b, v));
    MulAssoc(s, b, v);
    MulComm(s, b);
    MulAssoc(b, s, v);
    MulAddLeft(b, a, w);
    Regroup(c, bsv, Mul(b, w), Mul(a, w));
  }

  lemma Regroup(c: Elem, m: Elem, x: Elem, y: Elem)
    ensures Add(c, Add(m, x)) == Add(Add(Add(x, y), m), Add(c, y))
  {
    hide *;
    AddComm(Add(x, y), m);
    AddAssoc(m, x, y);
    AddSwap(Add(m, x), y, c, y);
    AddSelf(y);
    AddZero(Add(Add(m, x), c));
    AddComm(Add(m, x), c);
  }

  lemma {:induction false} QuotientZero(p: Vec, a: Elem)
    requires Eval(p, a) == ZERO && Quotient(p, a) == Zeros(|Quotient(p, a)|)
    ensures p == Zeros(|p|)
    decreases |p|
  {
    hide Add, Mul;
    if p != [] {
      MulZeroRight(a);
      AddZero(p[0]);
      if |p| > 1 {
        var q := Quotient(p, a);
        assert q[1..] == Quotient(p[1..], a);
        assert q[0] == ZERO;
        assert q[1..] == Zeros(|q[1..]|);
        QuotientZero(p[1..], a);
        assert p == [p[0]] + p[1..];
      } else {
        assert p[1..] == [];
      }
    }
  }

  ghost predicate Distinct(s: seq<Elem>)
  {
    forall i, j :: 0 <= i < j < |s| ==> s[i] != s[j]
  }

  lemma {:induction false} TooManyRoots(p: Vec, roots: seq<Elem>)
    requires |roots| == |p| && Distinct(roots)
    requires forall i :: 0 <= i < |roots| ==> Eval(p, roots[i]) == ZERO
    ensures p == Zeros(|p|)
    decreases |p|
  {
    hide Add, Mul, Eval;
    if p != [] {
      var a := roots[0];
      var q := Quotient(p, a);
      var rest := roots[1..];
      forall i | 0 <= i < |rest| ensures Eval(q, rest[i]) == ZERO {
        var b := rest[i];
        assert b == roots[i + 1];
        Division(p, a, b);
        AddZero(Mul(Add(b, a), Eval(q, b)));
        AddCancel(b, a);
        NoZeroDivisors(Add(b, a), Eval(q, b));
      }
      TooManyRoots(q, rest);
      QuotientZero(p, a);
    }
  }

  /** Rows of powers at k distinct points send only the zero vector to zero. */
  lemma PowerRowsIndependent(m: Mat, points: seq<Elem>, k: nat)
    requires |points| == k && Distinct(points) && Shape(m, k, k)
    requires forall r :: 0 <= r < k ==> m[r] == PowerRow(points[r], k)
    ensures Injective(m, k)
  {
    hide Add, Mul, Dot, Eval;
    forall x: Vec | |x| == k && Null(m, x) ensures x == Zeros(k) {
      forall r | 0 <= r < k ensures Eval(x, points[r]) == ZERO {
        RowEvaluates(points[r], x);
        assert Dot(m[r], x) == ZERO;
      }
      TooManyRoots(x, points);
    }
  }
}
