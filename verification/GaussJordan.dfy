/** Matrix inversion by Gauss-Jordan elimination.  Row operations on [A | I]
    keep its null space, and that alone gives a two-sided inverse when the left
    half reaches the identity and a nonzero null vector of A when it cannot. */
module GaussJordan {
  import opened Options
  import opened Gf256
  import opened LinearAlgebra
  import opened GfTables

  /** b undoes a on the vector x. */
  ghost predicate Undoes(a: Mat, b: Mat, x: Vec)
    requires Shape(a, |x|, |x|) && Shape(b, |x|, |x|)
  {
    MatVec(b, MatVec(a, x)) == x
  }

  /** Each undoes the other on every vector. */
  ghost predicate Inverse(a: Mat, b: Mat, k: nat)
    requires Shape(a, k, k) && Shape(b, k, k)
  {
    forall x: Vec :: |x| == k ==> Undoes(a, b, x) && Undoes(b, a, x)
  }

  function Augmented(a: Mat, k: nat): (w: Mat)
    requires Shape(a, k, k)
    ensures Shape(w, k, 2 * k)
    ensures forall r :: 0 <= r < k ==> w[r] == a[r] + Unit(k, r)
  {
    seq(k, r requires 0 <= r < k => a[r] + Unit(k, r))
  }

  function RightHalf(w: Mat, k: nat): (c: Mat)
    requires Shape(w, k, 2 * k)
    ensures Shape(c, k, k)
    ensures forall r :: 0 <= r < k ==> c[r] == w[r][k..]
  {
    seq(k, r requires 0 <= r < k => w[r][k..])
  }

  /** The first col columns are those of the identity. */
  ghost predicate UnitColumns(w: Mat, k: nat, col: nat)
    requires Shape(w, k, 2 * k) && col <= k
  {
    forall r, c :: 0 <= r < k && 0 <= c < col ==> w[r][c] == if r == c then ONE else ZERO
  }

  // ---------------------------------------------------------------------
  // From null spaces to inverses
  // ---------------------------------------------------------------------

  lemma AugmentedNull(a: Mat, k: nat, x: Vec, y: Vec)
    requires Shape(a, k, k) && |x| == k && |y| == k
    ensures Null(Augmented(a, k), x + y) <==> MatVec(a, x) == y
  {
    hide Add, Mul, Dot;
    var w := Augmented(a, k);
    forall r | 0 <= r < k ensures Dot(w[r], x + y) == Add(Dot(a[r], x), y[r]) {
      DotConcat(a[r], Unit(k, r), x, y);
      DotUnit(Unit(k, r), y, r);
    }
    forall r | 0 <= r < k ensures Dot(w[r], x + y) == ZERO <==> MatVec(a, x)[r] == y[r] {
      AddCancel(Dot(a[r], x), y[r]);
      AddSelf(y[r]);
    }
    if Null(w, x + y) {
      forall r | 0 <= r < k ensures MatVec(a, x)[r] == y[r] { assert Dot(w[r], x + y) == ZERO; }
    }
  }

  lemma ReducedNull(w: Mat, k: nat, x: Vec, y: Vec)
    requires Shape(w, k, 2 * k) && UnitColumns(w, k, k) && |x| == k && |y| == k
    ensures Null(w, x + y) <==> MatVec(RightHalf(w, k), y) == x
  {
    hide Add, Mul, Dot;
    var c := RightHalf(w, k);
    forall r | 0 <= r < k ensures Dot(w[r], x + y) == Add(x[r], Dot(c[r], y)) {
      assert w[r] == w[r][..k] + w[r][k..];
      DotConcat(w[r][..k], w[r][k..], x, y);
      DotUnit(w[r][..k], x, r);
    }
    forall r | 0 <= r < k ensures Dot(w[r], x + y) == ZERO <==> MatVec(c, y)[r] == x[r] {
      AddCancel(x[r], Dot(c[r], y));
      AddSelf(x[r]);
    }
    if Null(w, x + y) {
      forall r | 0 <= r < k ensures MatVec(c, y)[r] == x[r] { assert Dot(w[r], x + y) == ZERO; }
    }
  }

  /** Soundness: the right half is an inverse on both sides. */
  lemma ReducedIsInverse(a: Mat, w: Mat, k: nat)
    requires Shape(a, k, k) && SameNull(Augmented(a, k), w, k, 2 * k) && UnitColumns(w, k, k)
    ensures Inverse(a, RightHalf(w, k), k)
  {
    hide Dot, Null, Augmented, RightHalf;
    var c := RightHalf(w, k);
    forall x: Vec | |x| == k ensures Undoes(a, c, x) && Undoes(c, a, x) {
      var y := MatVec(a, x);
      AugmentedNull(a, k, x, y);
      ReducedNull(w, k, x, y);
      assert |x + y| == 2 * k;
      var z := MatVec(c, x);
      AugmentedNull(a, k, z, x);
      ReducedNull(w, k, z, x);
      assert |z + x| == 2 * k;
    }
  }

  /** The vector that a column without a pivot sends to zero. */
  function Witness(w: Mat, k: nat, col: nat): (x: Vec)
    requires Shape(w, k, 2 * k) && col < k
    ensures |x| == k
    ensures forall i :: 0 <= i < k ==> x[i] == if i < col then w[i][col] else if i == col then ONE else ZERO
  {
    seq(k, i requires 0 <= i < k => if i < col then w[i][col] else if i == col then ONE else ZERO)
  }

  lemma WitnessIsNull(w: Mat, k: nat, col: nat)
    requires Shape(w, k, 2 * k) && col < k && UnitColumns(w, k, col)
    requires forall r :: col <= r < k ==> w[r][col] == ZERO
    ensures Null(w, Witness(w, k, col) + Zeros(k))
  {
    hide Add, Mul, Dot;
    var x := Witness(w, k, col);
    var z := x + Zeros(k);
    forall r | 0 <= r < k ensures Dot(w[r], z) == ZERO {
      var row := w[r];
      var tail := z[col + 1..];
      assert row == row[..col] + ([row[col]] + row[col + 1..]);
      assert z == x[..col] + ([ONE] + tail);
      DotConcat(row[..col], [row[col]] + row[col + 1..], x[..col], [ONE] + tail);
      DotConcat([row[col]], row[col + 1..], [ONE], tail);
      DotUnit(row[..col], x[..col], r);
      DotZeroRight(row[col + 1..], tail);
      DotOne(row[col]);
      AddZero(row[col]);
      AddZero(ZERO);
      AddSelf(row[col]);
    }
  }

  lemma DotOne(a: Elem)
    ensures Dot([a], [ONE]) == a
  {
    hide Add, Mul;
    assert [a][..0] == [] && [ONE][..0] == [];
    MulComm(a, ONE);
    MulOne(a);
    AddZero(a);
  }

  /** Completeness: a column without a pivot means A itself is not injective. */
  lemma NoPivotMeansSingular(a: Mat, w: Mat, k: nat, col: nat)
    requires Shape(a, k, k) && SameNull(Augmented(a, k), w, k, 2 * k) && col < k && UnitColumns(w, k, col)
    requires forall r :: col <= r < k ==> w[r][col] == ZERO
    ensures !Injective(a, k)
  {
    hide Dot, Add, Mul, Augmented;
    var x := Witness(w, k, col);
    WitnessIsNull(w, k, col);
    assert |x + Zeros(k)| == 2 * k;
    AugmentedNull(a, k, x, Zeros(k));
    NullImage(a, x, k);
    assert Null(a, x) && x[col] == ONE && x != Zeros(k);
  }

  lemma NullImage(a: Mat, x: Vec, k: nat)
    requires Shape(a, k, k) && |x| == k
    ensures Null(a, x) <==> MatVec(a, x) == Zeros(k)
  {
    hide Dot;
    if MatVec(a, x) == Zeros(k) {
      forall r | 0 <= r < k ensures Dot(a[r], x) == ZERO { assert MatVec(a, x)[r] == ZERO; }
    }
  }

  lemma ZeroImage(b: Mat, k: nat)
    requires Shape(b, k, k)
    ensures MatVec(b, Zeros(k)) == Zeros(k)
  {
    hide Dot;
    forall r | 0 <= r < k ensures Dot(b[r], Zeros(k)) == ZERO { DotZeroRight(b[r], Zeros(k)); }
  }

  lemma InverseMeansInjective(a: Mat, b: Mat, k: nat)
    requires Shape(a, k, k) && Shape(b, k, k) && Inverse(a, b, k)
    ensures Injective(a, k)
  {
    hide Dot, MatVec, Zeros, Null;
    forall x: Vec | |x| == k && Null(a, x) ensures x == Zeros(k) {
      NullImage(a, x, k);
      assert Undoes(a, b, x);
      ZeroImage(b, k);
    }
  }

  // ---------------------------------------------------------------------
  // The algorithm
  // ---------------------------------------------------------------------

  /** row += factor · pivotRow, element by element. */
  method Eliminate(g: Tables, row: Vec, pivotRow: Vec, factor: Elem) returns (out: Vec)
    requires TablesOk(g) && |row| == |pivotRow|
    ensures out == AddScaled(row, factor, pivotRow)
  {
    hide Add, Mul;
    out := row;
    for i := 0 to |row|
      invariant |out| == |row|
      invariant forall j :: 0 <= j < i ==> out[j] == Add(row[j], Mul(factor, pivotRow[j]))
      invariant forall j :: i <= j < |row| ==> out[j] == row[j]
    {
      out := out[i := Add(out[i], TableMul(g, factor, pivotRow[i]))];
    }
  }

  method ScaleRow(g: Tables, row: Vec, f: Elem) returns (out: Vec)
    requires TablesOk(g)
    ensures out == Scale(row, f)
  {
    hide Add, Mul;
    out := row;
    for i := 0 to |row|
      invariant |out| == |row|
      invariant forall j :: 0 <= j < i ==> out[j] == Mul(row[j], f)
      invariant forall j :: i <= j < |row| ==> out[j] == row[j]
    {
      out := out[i := TableMul(g, out[i], f)];
    }
  }

  /** First row at or below the diagonal with a nonzero entry in the column. */
  method FindPivot(w: Mat, k: nat, col: nat) returns (pivot: Option<nat>)
    requires Shape(w, k, 2 * k) && col < k
    ensures pivot.Some? ==> col <= pivot.value < k && w[pivot.value][col] != ZERO && forall r :: col <= r < pivot.value ==> w[r][col] == ZERO
    ensures pivot.None? ==> forall r :: col <= r < k ==> w[r][col] == ZERO
  {
    for r := col to k
      invariant forall j :: col <= j < r ==> w[j][col] == ZERO
    {
      if w[r][col] != ZERO { return Some(r); }
    }
    pivot := None;
  }

  method ClearColumn(g: Tables, w: Mat, k: nat, col: nat) returns (out: Mat)
    requires TablesOk(g) && Shape(w, k, 2 * k) && col < k
    ensures out == Cleared(w, 2 * k, col)
  {
    hide Add, Mul;
    out := w;
    for r := 0 to k
      invariant |out| == k
      invariant forall j :: 0 <= j < r ==> out[j] == Cleared(w, 2 * k, col)[j]
      invariant forall j :: r <= j < k ==> out[j] == w[j]
      invariant out[col] == w[col]
    {
      if r != col {
        if out[r][col] == ZERO {
          AddNothing(out[r], w[col]);
        } else {
          var row := Eliminate(g, out[r], out[col], out[r][col]);
          out := out[r := row];
        }
      }
    }
  }

  lemma AddNothing(u: Vec, w: Vec)
    requires |u| == |w|
    ensures AddScaled(u, ZERO, w) == u
  {
    hide Add, Mul;
    forall i | 0 <= i < |u| ensures AddScaled(u, ZERO, w)[i] == u[i] {
      MulZero(w[i]);
      AddZero(u[i]);
    }
  }

  /** One round of elimination: swap, scale, clear. */
  method Pivot(g: Tables, w: Mat, k: nat, col: nat, pivot: nat) returns (out: Mat)
    requires TablesOk(g) && Shape(w, k, 2 * k) && col <= pivot < k && w[pivot][col] != ZERO && UnitColumns(w, k, col)
    ensures Shape(out, k, 2 * k) && SameNull(w, out, k, 2 * k) && UnitColumns(out, k, col + 1)
  {
    hide Add, Mul, Dot;
    var a := Swapped(w, col, pivot);
    SwapKeepsNull(w, k, 2 * k, col, pivot);
    var f := TableInv(g, a[col][col]);
    var row := ScaleRow(g, a[col], f);
    var b := a[col := row];
    MulInvNonzero(a[col][col]);
    ScaleKeepsNull(a, k, 2 * k, col, f);
    SameNullTransitive(w, a, b, k, 2 * k);
    out := ClearColumn(g, b, k, col);
    ClearKeepsNull(b, k, 2 * k, col);
    SameNullTransitive(w, b, out, k, 2 * k);
    ScaledColumns(a, k, col, f);
    ClearedColumns(b, k, col);
  }

  lemma MulInvNonzero(a: Elem)
    requires a != ZERO
    ensures Inv(a) != ZERO && Mul(a, Inv(a)) == ONE
  {
    hide *;
    MulInv(a);
    MulZeroRight(a);
    OneIsNotZero();
  }

  lemma OneIsNotZero()
    ensures ONE != ZERO
  {
  }

  lemma ScaledColumns(a: Mat, k: nat, col: nat, f: Elem)
    requires Shape(a, k, 2 * k) && col < k && UnitColumns(a, k, col) && Mul(a[col][col], f) == ONE
    ensures UnitColumns(a[col := Scale(a[col], f)], k, col) && a[col := Scale(a[col], f)][col][col] == ONE
  {
    hide Add, Mul;
    MulZero(f);
  }

  lemma ClearedColumns(b: Mat, k: nat, col: nat)
    requires Shape(b, k, 2 * k) && col < k && UnitColumns(b, k, col) && b[col][col] == ONE
    ensures UnitColumns(Cleared(b, 2 * k, col), k, col + 1)
  {
    hide Add, Mul;
    var out := Cleared(b, 2 * k, col);
    forall r, c | 0 <= r < k && 0 <= c < col + 1 ensures out[r][c] == if r == c then ONE else ZERO {
      if r != col {
        var x := b[r][col];
        assert out[r][c] == Add(b[r][c], Mul(x, b[col][c]));
        MulZeroRight(x);
        MulComm(x, ONE);
        MulOne(x);
        AddZero(b[r][c]);
        AddSelf(x);
      }
    }
  }

  /** Invert a matrix: an inverse exactly when the matrix is square and sends
      only zero to zero. */
  method InvertMatrix(g: Tables, a: Mat) returns (inv: Option<Mat>)
    requires TablesOk(g)
    ensures inv.Some? <==> a != [] && Shape(a, |a|, |a|) && Injective(a, |a|)
    ensures inv.Some? ==> Shape(inv.value, |a|, |a|) && Inverse(a, inv.value, |a|)
  {
    hide Add, Mul, Dot;
    var k := |a|;
    if k == 0 || exists r :: 0 <= r < k && |a[r]| != k { return None; }
    var w := Augmented(a, k);
    assert SameNull(w, w, k, 2 * k);
    for col := 0 to k
      invariant Shape(w, k, 2 * k) && SameNull(Augmented(a, k), w, k, 2 * k) && UnitColumns(w, k, col)
    {
      var pivot := FindPivot(w, k, col);
      if pivot.None? {
        NoPivotMeansSingular(a, w, k, col);
        return None;
      }
      var next := Pivot(g, w, k, col, pivot.value);
      SameNullTransitive(Augmented(a, k), w, next, k, 2 * k);
      w := next;
    }
    ReducedIsInverse(a, w, k);
    InverseMeansInjective(a, RightHalf(w, k), k);
    inv := Some(RightHalf(w, k));
  }
}
