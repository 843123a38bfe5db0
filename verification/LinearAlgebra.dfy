/** Vectors and matrices over GF(2^8): dot products, null spaces, row
    operations, and polynomials as rows of powers. */
module LinearAlgebra {
  import opened Gf256

  type Vec = seq<Elem>
  type Mat = seq<Vec>

  ghost predicate Shape(m: Mat, rows: nat, cols: nat)
  {
    |m| == rows && forall r :: 0 <= r < rows ==> |m[r]| == cols
  }

  function Dot(u: Vec, v: Vec): Elem
    requires |u| == |v|
  {
    if u == [] then ZERO
    else Add(Dot(u[..|u| - 1], v[..|v| - 1]), Mul(u[|u| - 1], v[|v| - 1]))
  }

  function MatVec(m: Mat, x: Vec): (y: Vec)
    requires Shape(m, |m|, |x|)
    ensures |y| == |m|
    ensures forall r :: 0 <= r < |m| ==> y[r] == Dot(m[r], x)
  {
    seq(|m|, r requires 0 <= r < |m| => Dot(m[r], x))
  }

  function Zeros(n: nat): (z: Vec)
    ensures |z| == n && forall i :: 0 <= i < n ==> z[i] == ZERO
  {
    seq(n, i => ZERO)
  }

  function Unit(n: nat, j: nat): (e: Vec)
    ensures |e| == n && forall i :: 0 <= i < n ==> e[i] == if i == j then ONE else ZERO
  {
    seq(n, i => if i == j then ONE else ZERO)
  }

  function VecAdd(u: Vec, v: Vec): (w: Vec)
    requires |u| == |v|
    ensures |w| == |u| && forall i :: 0 <= i < |u| ==> w[i] == Add(u[i], v[i])
  {
    seq(|u|, i requires 0 <= i < |u| => Add(u[i], v[i]))
  }

  /** u + f · w */
  function AddScaled(u: Vec, f: Elem, w: Vec): (r: Vec)
    requires |u| == |w|
    ensures |r| == |u| && forall i :: 0 <= i < |u| ==> r[i] == Add(u[i], Mul(f, w[i]))
  {
    seq(|u|, i requires 0 <= i < |u| => Add(u[i], Mul(f, w[i])))
  }

  /** u · f */
  function Scale(u: Vec, f: Elem): (r: Vec)
    ensures |r| == |u| && forall i :: 0 <= i < |u| ==> r[i] == Mul(u[i], f)
  {
    seq(|u|, i requires 0 <= i < |u| => Mul(u[i], f))
  }

  // ---------------------------------------------------------------------
  // The dot product is linear
  // ---------------------------------------------------------------------

  lemma {:induction false} DotAddScaled(u: Vec, f: Elem, w: Vec, z: Vec)
    requires |u| == |w| == |z|
    ensures Dot(AddScaled(u, f, w), z) == Add(Dot(u, z), Mul(f, Dot(w, z)))
    decreases |u|
  {
    hide Add, Mul;
    if u == [] {
      MulZeroRight(f);
      AddZero(ZERO);
    } else {
      var n := |u| - 1;
      DotAddScaled(u[..n], f, w[..n], z[..n]);
      assert AddScaled(u, f, w)[..n] == AddScaled(u[..n], f, w[..n]);
      MulAddLeft(u[n], Mul(f, w[n]), z[n]);
      MulAssoc(f, w[n], z[n]);
      MulAddRight(f, Dot(w[..n], z[..n]), Mul(w[n], z[n]));
      AddSwap(Dot(u[..n], z[..n]), Mul(f, Dot(w[..n], z[..n])), Mul(u[n], z[n]), Mul(f, Mul(w[n], z[n])));
    }
  }

  lemma {:induction false} DotScale(u: Vec, f: Elem, z: Vec)
    requires |u| == |z|
    ensures Dot(Scale(u, f), z) == Mul(f, Dot(u, z))
    decreases |u|
  {
    hide Add, Mul;
    if u == [] {
      MulZeroRight(f);
    } else {
      var n := |u| - 1;
      DotScale(u[..n], f, z[..n]);
      assert Scale(u, f)[..n] == Scale(u[..n], f);
      MulComm(u[n], f);
      MulAssoc(f, u[n], z[n]);
      MulAddRight(f, Dot(u[..n], z[..n]), Mul(u[n], z[n]));
    }
  }

  lemma {:induction false} DotConcat(u: Vec, u': Vec, z: Vec, z': Vec)
    requires |u| == |z| && |u'| == |z'|
    ensures Dot(u + u', z + z') == Add(Dot(u, z), Dot(u', z'))
    decreases |u'|
  {
    hide Add, Mul;
    if u' == [] {
      assert u + u' == u && z + z' == z;
      AddZero(Dot(u, z));
    } else {
      var n := |u'| - 1;
      assert (u + u')[..|u + u'| - 1] == u + u'[..n];
      assert (z + z')[..|z + z'| - 1] == z + z'[..n];
      DotConcat(u, u'[..n], z, z'[..n]);
      AddAssoc(Dot(u, z), Dot(u'[..n], z'[..n]), Mul(u'[n], z'[n]));
    }
  }

  lemma {:induction false} DotZeroRight(u: Vec, z: Vec)
    requires |u| == |z| && forall i :: 0 <= i < |z| ==> z[i] == ZERO
    ensures Dot(u, z) == ZERO
    decreases |u|
  {
    hide Add, Mul;
    if u != [] {
      DotZeroRight(u[..|u| - 1], z[..|z| - 1]);
      MulZeroRight(u[|u| - 1]);
      AddZero(ZERO);
    }
  }

  /** A row that is zero except for a one at position j picks out z[j]. */
  lemma {:induction false} DotUnit(u: Vec, z: Vec, j: nat)
    requires |u| == |z| && forall i :: 0 <= i < |u| ==> u[i] == if i == j then ONE else ZERO
    ensures Dot(u, z) == if j < |z| then z[j] else ZERO
    decreases |u|
  {
    hide Add, Mul;
    if u != [] {
      var n := |u| - 1;
      DotUnit(u[..n], z[..n], j);
      MulOne(z[n]);
      MulZero(z[n]);
      AddZero(z[n]);
      AddZero(Dot(u[..n], z[..n]));
    }
  }

  // ---------------------------------------------------------------------
  // Null spaces and row operations
  // ---------------------------------------------------------------------

  ghost predicate Null(m: Mat, z: Vec)
    requires Shape(m, |m|, |z|)
  {
    forall r :: 0 <= r < |m| ==> Dot(m[r], z) == ZERO
  }

  /** The two matrices send the same vectors to zero. */
  ghost predicate SameNull(m: Mat, m': Mat, rows: nat, cols: nat)
  {
    && Shape(m, rows, cols) && Shape(m', rows, cols)
    && forall z: Vec :: |z| == cols ==> (Null(m, z) <==> Null(m', z))
  }

  /** Only the zero vector is sent to zero. */
  ghost predicate Injective(m: Mat, k: nat)
    requires Shape(m, |m|, k)
  {
    forall x: Vec :: |x| == k && Null(m, x) ==> x == Zeros(k)
  }

  function Swapped(m: Mat, a: nat, b: nat): Mat
    requires a < |m| && b < |m|
  {
    m[a := m[b]][b := m[a]]
  }

  lemma SwapKeepsNull(m: Mat, rows: nat, cols: nat, a: nat, b: nat)
    requires Shape(m, rows, cols) && a < rows && b < rows
    ensures SameNull(m, Swapped(m, a, b), rows, cols)
  {
    var m' := Swapped(m, a, b);
    forall z: Vec | |z| == cols ensures Null(m, z) <==> Null(m', z) {
      if Null(m', z) {
        forall r | 0 <= r < rows ensures Dot(m[r], z) == ZERO {
          assert m[r] == m'[if r == a then b else if r == b then a else r];
        }
      }
    }
  }

  lemma ScaleKeepsNull(m: Mat, rows: nat, cols: nat, a: nat, f: Elem)
    requires Shape(m, rows, cols) && a < rows && f != ZERO
    ensures SameNull(m, m[a := Scale(m[a], f)], rows, cols)
  {
    hide Add, Mul, Dot;
    var m' := m[a := Scale(m[a], f)];
    forall z: Vec | |z| == cols ensures Null(m, z) <==> Null(m', z) {
      DotScale(m[a], f, z);
      MulZeroRight(f);
      if Dot(m'[a], z) == ZERO { NoZeroDivisors(f, Dot(m[a], z)); }
      if Null(m', z) {
        forall r | 0 <= r < rows ensures Dot(m[r], z) == ZERO { assert Dot(m'[r], z) == ZERO; }
      }
    }
  }

  /** Every row but the pivot row, less its multiple of the pivot row. */
  function Cleared(m: Mat, cols: nat, a: nat): (m': Mat)
    requires Shape(m, |m|, cols) && a < |m| && a < cols
    ensures Shape(m', |m|, cols)
    ensures forall r :: 0 <= r < |m| ==> m'[r] == if r == a then m[r] else AddScaled(m[r], m[r][a], m[a])
  {
    seq(|m|, r requires 0 <= r < |m| => if r == a then m[r] else AddScaled(m[r], m[r][a], m[a]))
  }

  lemma ClearKeepsNull(m: Mat, rows: nat, cols: nat, a: nat)
    requires Shape(m, rows, cols) && a < rows && a < cols
    ensures SameNull(m, Cleared(m, cols, a), rows, cols)
  {
    hide Add, Mul, Dot, Cleared;
    var m' := Cleared(m, cols, a);
    forall z: Vec | |z| == cols ensures Null(m, z) <==> Null(m', z) {
      forall r | 0 <= r < rows && Dot(m[a], z) == ZERO ensures Dot(m'[r], z) == Dot(m[r], z) {
        DotAddScaled(m[r], m[r][a], m[a], z);
        MulZeroRight(m[r][a]);
        AddZero(Dot(m[r], z));
      }
      assert m'[a] == m[a];
      if Null(m', z) {
        assert Dot(m'[a], z) == ZERO;
        forall r | 0 <= r < rows ensures Dot(m[r], z) == ZERO { assert Dot(m'[r], z) == ZERO; }
      }
    }
  }

  lemma SameNullTransitive(a: Mat, b: Mat, c: Mat, rows: nat, cols: nat)
    requires SameNull(a, b, rows, cols) && SameNull(b, c, rows, cols)
    ensures SameNull(a, c, rows, cols)
  {
    hide Dot, Null;
    forall z: Vec | |z| == cols ensures Null(a, z) <==> Null(c, z) {
      assert Null(a, z) <==> Null(b, z);
    }
  }

  // ---------------------------------------------------------------------
  // Products
  // ---------------------------------------------------------------------

  /** The combination of the rows of t with coefficients v: the row v · t. */
  function Combine(v: Vec, t: Mat, cols: nat): (r: Vec)
    requires Shape(t, |v|, cols)
    ensures |r| == cols
  {
    if v == [] then Zeros(cols)
    else AddScaled(Combine(v[..|v| - 1], t[..|t| - 1], cols), v[|v| - 1], t[|t| - 1])
  }

  lemma {:induction false} DotCombine(v: Vec, t: Mat, d: Vec)
    requires Shape(t, |v|, |d|)
    ensures Dot(Combine(v, t, |d|), d) == Dot(v, MatVec(t, d))
    decreases |v|
  {
    hide Add, Mul;
    if v == [] {
      DotZeroLeft(d);
    } else {
      var n := |v| - 1;
      DotCombine(v[..n], t[..n], d);
      DotAddScaled(Combine(v[..n], t[..n], |d|), v[n], t[n], d);
      assert MatVec(t, d)[..n] == MatVec(t[..n], d);
    }
  }

  lemma DotZeroLeft(z: Vec)
    ensures Dot(Zeros(|z|), z) == ZERO
  {
    DotUnit(Zeros(|z|), z, |z|);
  }
}
