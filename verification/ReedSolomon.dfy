/** Bytes as numbers. */
module ByteNumbers {
  lemma RoundTrip(i: int)
    requires 0 <= i < 256
    ensures (i as bv8) as int == i
  {
  }
}

/** The systematic Reed-Solomon codec: any k of the k + m shards of a stripe
    determine the data. */
module ReedSolomon {
  import opened Options
  import opened Gf256
  import opened LinearAlgebra
  import opened Vandermonde
  import opened GfTables
  import opened GaussJordan
  import ByteNumbers

  datatype EccError =
    | InvalidProfile(n: nat, k: nat)
    | ShardLength(expected: nat, got: nat)
    | TooFewSurvivors(need: nat, have: nat)
    | SingularMatrix

  datatype Result<+T> = Ok(value: T) | Err(error: EccError)

  /** mulTables[j][c][x] = encodeMatrix[k + j][c] · x */
  datatype Codec = Codec(k: nat, m: nat, encodeMatrix: Mat, mulTables: seq<seq<seq<Elem>>>)

  function Byte(i: nat): Elem
    requires i < 256
  {
    Elem(i as bv8)
  }

  lemma ByteNum(i: nat)
    requires i < 256
    ensures Num(Byte(i)) == i
  {
    ByteNumbers.RoundTrip(i);
  }

  lemma NumByte(b: Elem)
    ensures Byte(Num(b)) == b
  {
  }

  // ---------------------------------------------------------------------
  // What makes a codec correct
  // ---------------------------------------------------------------------

  ghost predicate IsTable(t: seq<Elem>, coeff: Elem)
  {
    |t| == 256 && forall b: Elem :: t[Num(b)] == Mul(coeff, b)
  }

  ghost predicate TablesFor(ts: seq<seq<Elem>>, row: Vec)
  {
    |ts| == |row| && forall c :: 0 <= c < |row| ==> IsTable(ts[c], row[c])
  }

  ghost predicate Increasing(rows: seq<nat>, n: nat)
  {
    && (forall i :: 0 <= i < |rows| ==> rows[i] < n)
    && (forall i, j :: 0 <= i < j < |rows| ==> rows[i] < rows[j])
  }

  function Select(m: Mat, rows: seq<nat>): (s: Mat)
    requires forall i :: 0 <= i < |rows| ==> rows[i] < |m|
    ensures |s| == |rows| && forall i :: 0 <= i < |rows| ==> s[i] == m[rows[i]]
  {
    seq(|rows|, i requires 0 <= i < |rows| => m[rows[i]])
  }

  /** The first k rows reproduce the data. */
  ghost predicate Systematic(m: Mat, k: nat)
    requires Shape(m, |m|, k) && k <= |m|
  {
    forall i: nat, d: Vec :: i < k && |d| == k ==> Dot(m[i], d) == d[i]
  }

  /** Any k rows are independent. */
  ghost predicate AnyRowsIndependent(m: Mat, k: nat)
    requires Shape(m, |m|, k)
  {
    forall rows: seq<nat> :: |rows| == k && Increasing(rows, |m|) ==> Injective(Select(m, rows), k)
  }

  /** The row acts on d as the row v does on t · d. */
  ghost predicate ActsAs(row: Vec, v: Vec, t: Mat, d: Vec)
    requires |row| == |d| && Shape(t, |v|, |d|)
  {
    Dot(row, d) == Dot(v, MatVec(t, d))
  }

  /** Row i takes the data to the value at point i of a polynomial whose k coefficients are T · data. */
  ghost predicate Evaluates(m: Mat, k: nat, t: Mat)
    requires Shape(m, |m|, k) && |m| <= 255
  {
    Shape(t, k, k) && forall i: nat, d: Vec :: i < |m| && |d| == k ==> ActsAs(m[i], PowerRow(Byte(i), k), t, d)
  }

  ghost predicate OnePolynomial(m: Mat, k: nat)
    requires Shape(m, |m|, k) && |m| <= 255
  {
    exists t: Mat :: Evaluates(m, k, t)
  }

  ghost predicate ValidCodec(cd: Codec)
  {
    && 1 <= cd.k && 1 <= cd.m && cd.k + cd.m <= 255
    && Shape(cd.encodeMatrix, cd.k + cd.m, cd.k)
    && Systematic(cd.encodeMatrix, cd.k) && AnyRowsIndependent(cd.encodeMatrix, cd.k)
    && |cd.mulTables| == cd.m
    && forall j :: 0 <= j < cd.m ==> TablesFor(cd.mulTables[j], cd.encodeMatrix[cd.k + j])
  }

  /** Shard i of the stripe that holds `data`: row i of the encode matrix applied to it. */
  function Shard(cd: Codec, data: Mat, len: nat, i: nat): Vec
    requires Shape(cd.encodeMatrix, cd.k + cd.m, cd.k) && i < cd.k + cd.m && Shape(data, cd.k, len)
  {
    Combine(cd.encodeMatrix[i], data, len)
  }

  // ---------------------------------------------------------------------
  // Byte columns
  // ---------------------------------------------------------------------

  function Column(t: Mat, len: nat, p: nat): (c: Vec)
    requires Shape(t, |t|, len) && p < len
    ensures |c| == |t| && forall i :: 0 <= i < |t| ==> c[i] == t[i][p]
  {
    seq(|t|, i requires 0 <= i < |t| => t[i][p])
  }

  lemma {:induction false} CombineAt(v: Vec, t: Mat, len: nat, p: nat)
    requires Shape(t, |v|, len) && p < len
    ensures Combine(v, t, len)[p] == Dot(v, Column(t, len, p))
    decreases |v|
  {
    hide Add, Mul;
    if v != [] {
      var n := |v| - 1;
      CombineAt(v[..n], t[..n], len, p);
      assert Column(t, len, p)[..n] == Column(t[..n], len, p);
    }
  }

  lemma DataShards(cd: Codec, data: Mat, len: nat, i: nat)
    requires ValidCodec(cd) && Shape(data, cd.k, len) && i < cd.k
    ensures Shard(cd, data, len, i) == data[i]
  {
    hide Add, Mul, Dot, Combine;
    forall p | 0 <= p < len ensures Shard(cd, data, len, i)[p] == data[i][p] {
      CombineAt(cd.encodeMatrix[i], data, len, p);
      assert Dot(cd.encodeMatrix[i], Column(data, len, p)) == Column(data, len, p)[i];
    }
  }

  /** A stripe is one polynomial: at every byte position there are k coefficients such that shard i holds the
      value at point i. */
  lemma StripeIsPolynomial(cd: Codec, data: Mat, len: nat, p: nat) returns (c: Vec)
    requires cd.k + cd.m <= 255 && Shape(cd.encodeMatrix, cd.k + cd.m, cd.k) && OnePolynomial(cd.encodeMatrix, cd.k)
    requires Shape(data, cd.k, len) && p < len
    ensures |c| == cd.k && forall i: nat :: i < cd.k + cd.m ==> Shard(cd, data, len, i)[p] == Eval(c, Byte(i))
  {
    hide Dot, Combine, PowerRow, Byte, MatVec, Eval, ActsAs;
    var t :| Evaluates(cd.encodeMatrix, cd.k, t);
    var d := Column(data, len, p);
    c := MatVec(t, d);
    forall i: nat | i < cd.k + cd.m ensures Shard(cd, data, len, i)[p] == Eval(c, Byte(i)) {
      CombineAt(cd.encodeMatrix[i], data, len, p);
      ActsAsEval(cd.encodeMatrix[i], Byte(i), t, d);
    }
  }

  lemma ActsAsEval(row: Vec, a: Elem, t: Mat, d: Vec)
    requires |row| == |d| && Shape(t, |d|, |d|) && ActsAs(row, PowerRow(a, |d|), t, d)
    ensures Dot(row, d) == Eval(MatVec(t, d), a)
  {
    hide Dot, MatVec, PowerRow, Eval;
    RowEvaluates(a, MatVec(t, d));
  }

  /** The polynomial takes the values of the data at the first k points. */
  ghost predicate Through(c: Vec, data: Mat, k: nat, len: nat, p: nat)
    requires k <= 255 && Shape(data, k, len) && p < len
  {
    |c| == k && forall x: nat :: x < k ==> Eval(c, Byte(x)) == data[x][p]
  }

  /** It is the only one of its degree through the data: no other parity would do. */
  lemma ParityExtendsData(cd: Codec, data: Mat, len: nat, p: nat, c: Vec, i: nat)
    requires cd.k + cd.m <= 255 && Shape(cd.encodeMatrix, cd.k + cd.m, cd.k) && i < cd.k + cd.m
    requires Shape(data, cd.k, len) && p < len && Through(c, data, cd.k, len, p)
    requires OnePolynomial(cd.encodeMatrix, cd.k)
    requires ValidCodec(cd)
    ensures Shard(cd, data, len, i)[p] == Eval(c, Byte(i))
  {
    hide ValidCodec, OnePolynomial, Shard, Eval, Byte;
    var c' := StripeIsPolynomial(cd, data, len, p);
    forall x: nat | x < cd.k ensures Eval(c, Byte(x)) == Eval(c', Byte(x)) { DataShards(cd, data, len, x); }
    SamePolynomial(c, c');
  }

  /** Two polynomials with k coefficients that agree at k points are the same. */
  lemma SamePolynomial(c: Vec, c': Vec)
    requires |c| == |c'| <= 255 && forall i: nat :: i < |c| ==> Eval(c, Byte(i)) == Eval(c', Byte(i))
    ensures c == c'
  {
    hide Add, Dot, PowerRow, Byte, Eval, Injective;
    var k := |c|;
    var v := seq(k, i requires 0 <= i < k => PowerRow(Byte(i), k));
    var first: seq<nat> := seq(k, i => i);
    assert Select(v, first) == v;
    VandermondeRowsIndependent(v, k, k, first);
    forall i | 0 <= i < k ensures Dot(v[i], VecAdd(c, c')) == ZERO { SameValue(Byte(i), c, c'); }
    NoDifference(v, c, c');
  }

  lemma SameValue(a: Elem, c: Vec, c': Vec)
    requires |c| == |c'| && Eval(c, a) == Eval(c', a)
    ensures Dot(PowerRow(a, |c|), VecAdd(c, c')) == ZERO
  {
    hide Add, Dot, PowerRow, Eval, VecAdd;
    RowEvaluates(a, c);
    RowEvaluates(a, c');
    DotVecAdd(PowerRow(a, |c|), c, c');
    AddSelf(Eval(c, a));
  }

  lemma NoDifference(v: Mat, c: Vec, c': Vec)
    requires |c| == |c'| == |v| && Shape(v, |c|, |c|) && Injective(v, |c|)
    requires forall i :: 0 <= i < |c| ==> Dot(v[i], VecAdd(c, c')) == ZERO
    ensures c == c'
  {
    hide Add, Dot;
    assert Null(v, VecAdd(c, c'));
    forall i | 0 <= i < |c| ensures c[i] == c'[i] {
      assert VecAdd(c, c')[i] == ZERO;
      AddCancel(c[i], c'[i]);
    }
  }

  /** Two stripes that agree on k shards hold the same data. */
  lemma ShardsDetermineData(cd: Codec, a: Mat, b: Mat, len: nat, rows: seq<nat>)
    requires ValidCodec(cd) && Shape(a, cd.k, len) && Shape(b, cd.k, len)
    requires |rows| == cd.k && Increasing(rows, cd.k + cd.m)
    requires forall s :: 0 <= s < cd.k ==> Shard(cd, a, len, rows[s]) == Shard(cd, b, len, rows[s])
    ensures a == b
  {
    hide Add, Mul, Dot, Combine;
    var sub := Select(cd.encodeMatrix, rows);
    assert Injective(sub, cd.k);
    forall i, p | 0 <= i < cd.k && 0 <= p < len ensures a[i][p] == b[i][p] {
      var x, y := Column(a, len, p), Column(b, len, p);
      var d := VecAdd(x, y);
      forall s | 0 <= s < cd.k ensures Dot(sub[s], d) == ZERO {
        CombineAt(sub[s], a, len, p);
        CombineAt(sub[s], b, len, p);
        assert Shard(cd, a, len, rows[s])[p] == Shard(cd, b, len, rows[s])[p];
        DotVecAdd(sub[s], x, y);
        AddSelf(Dot(sub[s], x));
      }
      assert Null(sub, d);
      assert d[i] == ZERO;
      AddCancel(x[i], y[i]);
    }
    forall i | 0 <= i < cd.k ensures a[i] == b[i] {}
  }

  lemma {:induction false} DotVecAdd(u: Vec, x: Vec, y: Vec)
    requires |u| == |x| == |y|
    ensures Dot(u, VecAdd(x, y)) == Add(Dot(u, x), Dot(u, y))
    decreases |u|
  {
    hide Add, Mul;
    if u == [] {
      AddZero(ZERO);
    } else {
      var n := |u| - 1;
      assert VecAdd(x, y)[..n] == VecAdd(x[..n], y[..n]);
      DotVecAdd(u[..n], x[..n], y[..n]);
      MulAddRight(u[n], x[n], y[n]);
      AddSwap(Dot(u[..n], x[..n]), Dot(u[..n], y[..n]), Mul(u[n], x[n]), Mul(u[n], y[n]));
    }
  }

  // ---------------------------------------------------------------------
  // Construction
  // ---------------------------------------------------------------------

  /** The points 0, 1, 2, ... are distinct, so the top block is invertible. */
  lemma PointsDiffer(rows: seq<nat>, points: seq<Elem>)
    requires Increasing(rows, 255) && |points| == |rows|
    requires forall i :: 0 <= i < |rows| ==> points[i] == Byte(rows[i])
    ensures Distinct(points)
  {
    hide Byte, Num;
    forall i, j | 0 <= i < j < |points| ensures points[i] != points[j] {
      ByteNum(rows[i]);
      ByteNum(rows[j]);
    }
  }

  lemma VandermondeRowsIndependent(v: Mat, k: nat, n: nat, rows: seq<nat>)
    requires Shape(v, n, k) && n <= 255 && (forall r :: 0 <= r < n ==> v[r] == PowerRow(Byte(r), k))
    requires |rows| == k && Increasing(rows, n)
    ensures Injective(Select(v, rows), k)
  {
    hide PowerRow, Byte, Injective;
    var points := seq(k, i requires 0 <= i < k => Byte(rows[i]));
    PointsDiffer(rows, points);
    PowerRowsIndependent(Select(v, rows), points, k);
  }

  /** m is the product V · T: each row acts as the row of V does after T. */
  ghost predicate IsProduct(m: Mat, v: Mat, t: Mat, n: nat, k: nat)
  {
    && Shape(m, n, k) && Shape(v, n, k) && Shape(t, k, k)
    && forall r: nat, d: Vec :: r < n && |d| == k ==> ActsAs(m[r], v[r], t, d)
  }

  lemma ProductIsSystematic(m: Mat, v: Mat, t: Mat, n: nat, k: nat, top: Mat)
    requires IsProduct(m, v, t, n, k) && k <= n && Shape(top, k, k) && Inverse(top, t, k)
    requires forall r :: 0 <= r < k ==> top[r] == v[r]
    ensures Systematic(m, k)
  {
    hide Add, Mul, Dot;
    forall i: nat, d: Vec | i < k && |d| == k ensures Dot(m[i], d) == d[i] {
      assert ActsAs(m[i], v[i], t, d);
      assert Undoes(top, t, d) && Undoes(t, top, d);
      assert MatVec(top, MatVec(t, d))[i] == d[i];
    }
  }

  lemma ProductRowsIndependent(sub: Mat, vsub: Mat, t: Mat, k: nat, top: Mat)
    requires IsProduct(sub, vsub, t, k, k) && Shape(top, k, k)
    requires Inverse(top, t, k) && Injective(vsub, k)
    ensures Injective(sub, k)
  {
    hide Add, Mul, Dot, Zeros, MatVec;
    forall x: Vec | |x| == k && Null(sub, x) ensures x == Zeros(k) {
      var y := MatVec(t, x);
      forall s | 0 <= s < k ensures Dot(vsub[s], y) == ZERO {
        assert ActsAs(sub[s], vsub[s], t, x);
        assert Dot(sub[s], x) == ZERO;
      }
      assert Null(vsub, y);
      assert y == Zeros(k);
      assert Undoes(t, top, x) by { assert Undoes(top, t, x) && Undoes(t, top, x); }
      ZeroImage(top, k);
    }
  }

  method VandermondeMatrix(g: Tables, n: nat, k: nat) returns (v: Mat)
    requires TablesOk(g) && 1 <= k && n <= 255
    ensures Shape(v, n, k) && forall r :: 0 <= r < n ==> v[r] == PowerRow(Byte(r), k)
  {
    hide Mul, Byte;
    v := [];
    for r := 0 to n
      invariant |v| == r && forall j :: 0 <= j < r ==> v[j] == PowerRow(Byte(j), k)
    {
      var row: Vec := [ONE];
      for c := 1 to k
        invariant row == PowerRow(Byte(r), c)
      {
        row := row + [TableMul(g, row[c - 1], Byte(r))];
      }
      v := v + [row];
    }
  }

  method Multiply(g: Tables, v: Mat, t: Mat, n: nat, k: nat) returns (m: Mat)
    requires TablesOk(g) && Shape(v, n, k) && Shape(t, k, k)
    ensures IsProduct(m, v, t, n, k)
  {
    hide Add, Mul, Dot;
    m := [];
    for r := 0 to n
      invariant |m| == r && forall j :: 0 <= j < r ==> m[j] == Combine(v[j], t, k)
    {
      var row := [];
      for c := 0 to k
        invariant |row| == c && forall j :: 0 <= j < c ==> row[j] == Combine(v[r], t, k)[j]
      {
        var acc := ZERO;
        for i := 0 to k
          invariant acc == Combine(v[r][..i], t[..i], k)[c]
        {
          assert v[r][..i + 1][..i] == v[r][..i] && t[..i + 1][..i] == t[..i];
          acc := Add(acc, TableMul(g, v[r][i], t[i][c]));
        }
        assert v[r][..k] == v[r] && t[..k] == t;
        row := row + [acc];
      }
      m := m + [row];
    }
    forall r: nat, d: Vec | r < n && |d| == k ensures ActsAs(m[r], v[r], t, d) { DotCombine(v[r], t, d); }
  }

  method MulTable(g: Tables, coeff: Elem) returns (t: seq<Elem>)
    requires TablesOk(g)
    ensures IsTable(t, coeff)
  {
    hide Mul, Byte, Num;
    t := [];
    for x := 0 to 256
      invariant |t| == x && forall j :: 0 <= j < x ==> t[j] == Mul(coeff, Byte(j))
    {
      t := t + [TableMul(g, coeff, Byte(x))];
    }
    forall b: Elem ensures t[Num(b)] == Mul(coeff, b) { NumByte(b); }
  }

  method RowTables(g: Tables, row: Vec) returns (ts: seq<seq<Elem>>)
    requires TablesOk(g)
    ensures TablesFor(ts, row)
  {
    ts := [];
    for c := 0 to |row|
      invariant |ts| == c && forall j :: 0 <= j < c ==> IsTable(ts[j], row[j])
    {
      var t := MulTable(g, row[c]);
      ts := ts + [t];
    }
  }

  /** Create a codec; the construction never meets a singular matrix. */
  method NewCodec(g: Tables, k: nat, m: nat) returns (r: Result<Codec>)
    requires TablesOk(g)
    ensures k == 0 || m == 0 || k + m > 255 ==> r == Err(InvalidProfile(k + m, k))
    ensures !(k == 0 || m == 0 || k + m > 255) ==> r.Ok? && r.value.k == k && r.value.m == m && ValidCodec(r.value) && OnePolynomial(r.value.encodeMatrix, k)
  {
    hide TablesFor, Shape, Systematic, AnyRowsIndependent, OnePolynomial;
    if k == 0 || m == 0 || k + m > 255 { return Err(InvalidProfile(k + m, k)); }
    var matrix := EncodeMatrix(g, k, m);
    var tables := ParityTables(g, matrix, k, m);
    r := Ok(Codec(k, m, matrix, tables));
  }

  method ParityTables(g: Tables, matrix: Mat, k: nat, m: nat) returns (tables: seq<seq<seq<Elem>>>)
    requires TablesOk(g) && Shape(matrix, k + m, k)
    ensures |tables| == m && forall j :: 0 <= j < m ==> TablesFor(tables[j], matrix[k + j])
  {
    hide IsTable;
    tables := [];
    for j := 0 to m
      invariant |tables| == j && forall i :: 0 <= i < j ==> TablesFor(tables[i], matrix[k + i])
    {
      var ts := RowTables(g, matrix[k + j]);
      tables := tables + [ts];
    }
  }

  method EncodeMatrix(g: Tables, k: nat, m: nat) returns (matrix: Mat)
    requires TablesOk(g) && k > 0 && m > 0 && k + m <= 255
    ensures Shape(matrix, k + m, k) && Systematic(matrix, k) && AnyRowsIndependent(matrix, k) && OnePolynomial(matrix, k)
  {
    hide Add, Mul, Dot, PowerRow, Byte, Injective, Systematic, AnyRowsIndependent, OnePolynomial;
    var n := k + m;
    var v := VandermondeMatrix(g, n, k);
    ghost var first: seq<nat> := seq(k, i => i);
    assert Select(v, first) == v[..k];
    VandermondeRowsIndependent(v, k, n, first);
    var topInv := InvertMatrix(g, v[..k]);
    matrix := Multiply(g, v, topInv.value, n, k);
    MatrixIsGood(matrix, v, topInv.value, n, k, v[..k]);
    ProductEvaluates(matrix, v, topInv.value, n, k);
  }

  lemma MatrixIsGood(matrix: Mat, v: Mat, t: Mat, n: nat, k: nat, top: Mat)
    requires IsProduct(matrix, v, t, n, k) && k <= n <= 255 && Shape(top, k, k) && Inverse(top, t, k)
    requires forall r :: 0 <= r < k ==> top[r] == v[r]
    requires forall r :: 0 <= r < n ==> v[r] == PowerRow(Byte(r), k)
    ensures Systematic(matrix, k) && AnyRowsIndependent(matrix, k)
  {
    hide PowerRow, Byte, Injective, Systematic, Inverse, ActsAs, Dot;
    ProductIsSystematic(matrix, v, t, n, k, top);
    forall rows: seq<nat> | |rows| == k && Increasing(rows, |matrix|) ensures Injective(Select(matrix, rows), k) {
      VandermondeRowsIndependent(v, k, n, rows);
      SelectProduct(matrix, v, t, n, k, rows);
      ProductRowsIndependent(Select(matrix, rows), Select(v, rows), t, k, top);
    }
  }

  lemma ProductEvaluates(m: Mat, v: Mat, t: Mat, n: nat, k: nat)
    requires IsProduct(m, v, t, n, k) && n <= 255 && forall r :: 0 <= r < n ==> v[r] == PowerRow(Byte(r), k)
    ensures OnePolynomial(m, k)
  {
    hide PowerRow, Byte, ActsAs;
    assert Evaluates(m, k, t);
  }

  lemma SelectProduct(m: Mat, v: Mat, t: Mat, n: nat, k: nat, rows: seq<nat>)
    requires IsProduct(m, v, t, n, k) && |rows| == k && Increasing(rows, n)
    ensures IsProduct(Select(m, rows), Select(v, rows), t, k, k)
  {
    hide Dot, ActsAs;
    forall s: nat, d: Vec | s < k && |d| == k ensures ActsAs(Select(m, rows)[s], Select(v, rows)[s], t, d) {
      assert ActsAs(m[rows[s]], v[rows[s]], t, d);
    }
  }

  // ---------------------------------------------------------------------
  // Encoding
  // ---------------------------------------------------------------------

  /** acc[p] ^= table[source[p]] for every byte. */
  method XorThroughTable(acc: Vec, t: seq<Elem>, source: Vec, ghost coeff: Elem) returns (out: Vec)
    requires |acc| == |source| && IsTable(t, coeff)
    ensures out == AddScaled(acc, coeff, source)
  {
    hide Add, Mul, Num;
    out := acc;
    for p := 0 to |acc|
      invariant |out| == |acc|
      invariant forall j :: 0 <= j < p ==> out[j] == Add(acc[j], Mul(coeff, source[j]))
      invariant forall j :: p <= j < |acc| ==> out[j] == acc[j]
    {
      out := out[p := Add(out[p], t[Num(source[p])])];
    }
  }

  /** The first shard of another length. */
  ghost predicate Misfit(shards: Mat, len: nat, i: nat)
  {
    i < |shards| && |shards[i]| != len && forall j :: 0 <= j < i ==> |shards[j]| == len
  }

  method FirstMismatch(shards: Mat, len: nat) returns (bad: Option<nat>)
    ensures bad.None? ==> Shape(shards, |shards|, len)
    ensures bad.Some? ==> Misfit(shards, len, bad.value)
  {
    for i := 0 to |shards|
      invariant forall j :: 0 <= j < i ==> |shards[j]| == len
    {
      if |shards[i]| != len { return Some(i); }
    }
    bad := None;
  }

  /** One parity row gains one data column. */
  lemma CombineNext(v: Vec, t: Mat, len: nat, c: nat)
    requires Shape(t, |v|, len) && c < |v|
    ensures Combine(v[..c + 1], t[..c + 1], len) == AddScaled(Combine(v[..c], t[..c], len), v[c], t[c])
  {
    assert v[..c + 1][..c] == v[..c] && t[..c + 1][..c] == t[..c];
  }

  /** Compute the parity shards of k equal-length data shards. */
  method Encode(cd: Codec, data: Mat) returns (r: Result<Mat>)
    requires ValidCodec(cd)
    ensures |data| != cd.k ==> r == Err(InvalidProfile(|data| + cd.m, cd.k))
    ensures |data| == cd.k && !Shape(data, cd.k, |data[0]|) ==> exists i: nat :: Misfit(data, |data[0]|, i) && r == Err(ShardLength(|data[0]|, |data[i]|))
    ensures |data| == cd.k && Shape(data, cd.k, |data[0]|) ==>
      r.Ok? && Shape(r.value, cd.m, |data[0]|) && forall j :: 0 <= j < cd.m ==> r.value[j] == Shard(cd, data, |data[0]|, cd.k + j)
  {
    hide Add, Mul, Combine, IsTable, Systematic, AnyRowsIndependent;
    if |data| != cd.k { return Err(InvalidProfile(|data| + cd.m, cd.k)); }
    var len := |data[0]|;
    var bad := FirstMismatch(data, len);
    if bad.Some? { return Err(ShardLength(len, |data[bad.value]|)); }
    var parity: Mat := seq(cd.m, j => Zeros(len));
    forall j | 0 <= j < cd.m ensures parity[j] == Combine(cd.encodeMatrix[cd.k + j][..0], data[..0], len) {
      CombineNothing(cd.encodeMatrix[cd.k + j][..0], data[..0], len);
    }
    for c := 0 to cd.k
      invariant Shape(parity, cd.m, len)
      invariant forall j :: 0 <= j < cd.m ==> parity[j] == Combine(cd.encodeMatrix[cd.k + j][..c], data[..c], len)
    {
      parity := AddColumn(cd, data, len, parity, c);
    }
    forall j | 0 <= j < cd.m ensures parity[j] == Shard(cd, data, len, cd.k + j) {
      assert cd.encodeMatrix[cd.k + j][..cd.k] == cd.encodeMatrix[cd.k + j] && data[..cd.k] == data;
    }
    r := Ok(parity);
  }

  lemma CombineNothing(v: Vec, t: Mat, len: nat)
    requires v == [] && t == []
    ensures Combine(v, t, len) == Zeros(len)
  {
  }

  method AddColumn(cd: Codec, data: Mat, len: nat, parity: Mat, c: nat) returns (out: Mat)
    requires ValidCodec(cd) && Shape(data, cd.k, len) && Shape(parity, cd.m, len) && c < cd.k
    requires forall j :: 0 <= j < cd.m ==> parity[j] == Combine(cd.encodeMatrix[cd.k + j][..c], data[..c], len)
    ensures Shape(out, cd.m, len)
    ensures forall j :: 0 <= j < cd.m ==> out[j] == Combine(cd.encodeMatrix[cd.k + j][..c + 1], data[..c + 1], len)
  {
    hide Add, Mul, Combine, IsTable, Systematic, AnyRowsIndependent;
    out := parity;
    for j := 0 to cd.m
      invariant Shape(out, cd.m, len)
      invariant forall i :: 0 <= i < j ==> out[i] == Combine(cd.encodeMatrix[cd.k + i][..c + 1], data[..c + 1], len)
      invariant forall i :: j <= i < cd.m ==> out[i] == parity[i]
    {
      ghost var coeffs := cd.encodeMatrix[cd.k + j];
      assert TablesFor(cd.mulTables[j], coeffs);
      var row := XorThroughTable(out[j], cd.mulTables[j][c], data[c], coeffs[c]);
      CombineNext(coeffs, data, len, c);
      out := out[j := row];
    }
  }

  // ---------------------------------------------------------------------
  // Decoding
  // ---------------------------------------------------------------------

  /** The indices of the shards that are present, in order. */
  function Survivors(shards: seq<Option<Vec>>, n: nat): (rows: seq<nat>)
    requires n <= |shards|
    ensures Increasing(rows, n) && |rows| <= n
    ensures forall i :: 0 <= i < |rows| ==> shards[rows[i]].Some?
  {
    if n == 0 then []
    else if shards[n - 1].Some? then Survivors(shards, n - 1) + [n - 1]
    else Survivors(shards, n - 1)
  }

  lemma {:induction false} SurvivorsComplete(shards: seq<Option<Vec>>, n: nat, i: nat)
    requires n <= |shards| && i < n && shards[i].Some?
    ensures i in Survivors(shards, n)
    decreases n
  {
    if i < n - 1 { SurvivorsComplete(shards, n - 1, i); }
  }

  function Present(shards: seq<Option<Vec>>, rows: seq<nat>): (vs: Mat)
    requires forall i :: 0 <= i < |rows| ==> rows[i] < |shards| && shards[rows[i]].Some?
    ensures |vs| == |rows| && forall i :: 0 <= i < |rows| ==> vs[i] == shards[rows[i]].value
  {
    seq(|rows|, i requires 0 <= i < |rows| => shards[rows[i]].value)
  }

  /** Every surviving shard is the one the stripe of `data` holds. */
  ghost predicate StripeOf(cd: Codec, data: Mat, len: nat, shards: seq<Option<Vec>>)
    requires ValidCodec(cd) && |shards| == cd.k + cd.m
  {
    && Shape(data, cd.k, len)
    && forall i :: 0 <= i < |shards| && shards[i].Some? ==> shards[i].value == Shard(cd, data, len, i)
  }

  /** Multiplying k shards by the inverse of their rows gives data that encodes to them. */
  lemma InverseDecodes(rows: Mat, inv: Mat, k: nat, shards: Mat, data: Mat, len: nat)
    requires Shape(rows, k, k) && Shape(inv, k, k) && Shape(shards, k, len) && Shape(data, k, len)
    requires RowsOf(data, inv, k, shards, len)
    requires Inverse(rows, inv, k)
    ensures RowsOf(shards, rows, k, data, len)
  {
    hide Add, Mul, Dot, Combine, MatVec, Inverse;
    forall s | 0 <= s < k ensures shards[s] == Combine(rows[s], data, len) {
      forall p | 0 <= p < len ensures Combine(rows[s], data, len)[p] == shards[s][p] {
        InverseUndoes(rows, inv, k, Column(shards, len, p));
        InverseDecodesAt(rows, inv, k, shards, data, len, s, p);
      }
    }
  }

  lemma InverseUndoes(rows: Mat, inv: Mat, k: nat, y: Vec)
    requires Shape(rows, k, k) && Shape(inv, k, k) && |y| == k && Inverse(rows, inv, k)
    ensures Undoes(inv, rows, y)
  {
    hide MatVec;
    assert Undoes(rows, inv, y) && Undoes(inv, rows, y);
  }

  lemma InverseDecodesAt(rows: Mat, inv: Mat, k: nat, shards: Mat, data: Mat, len: nat, s: nat, p: nat)
    requires Shape(rows, k, k) && Shape(inv, k, k) && Shape(shards, k, len) && Shape(data, k, len) && s < k && p < len
    requires RowsOf(data, inv, k, shards, len)
    requires Undoes(inv, rows, Column(shards, len, p))
    ensures Combine(rows[s], data, len)[p] == shards[s][p]
  {
    hide Add, Mul, Dot, Combine, MatVec, RowsOf;
    ColumnOfRows(data, inv, k, shards, len, p);
    CombineAt(rows[s], data, len, p);
  }

  lemma ColumnOfRows(out: Mat, m: Mat, k: nat, shards: Mat, len: nat, p: nat)
    requires Shape(m, k, k) && Shape(shards, k, len) && Shape(out, k, len) && p < len
    requires RowsOf(out, m, k, shards, len)
    ensures Column(out, len, p) == MatVec(m, Column(shards, len, p))
  {
    hide Add, Mul, Dot, Combine;
    var y := Column(shards, len, p);
    forall r | 0 <= r < k ensures Column(out, len, p)[r] == MatVec(m, y)[r] { CombineAt(m[r], shards, len, p); }
  }

  /** Row r of the result combines the shards with row r of the matrix. */
  ghost predicate RowsOf(out: Mat, m: Mat, k: nat, shards: Mat, len: nat)
    requires Shape(m, k, k) && Shape(shards, k, len) && Shape(out, k, len)
  {
    forall r :: 0 <= r < k ==> out[r] == Combine(m[r], shards, len)
  }

  method ApplyMatrix(g: Tables, inv: Mat, k: nat, shards: Mat, len: nat) returns (data: Mat)
    requires TablesOk(g) && Shape(inv, k, k) && Shape(shards, k, len)
    ensures Shape(data, k, len) && forall r :: 0 <= r < k ==> data[r] == Combine(inv[r], shards, len)
  {
    hide Add, Mul, Combine, IsTable;
    data := [];
    for r := 0 to k
      invariant |data| == r && forall j :: 0 <= j < r ==> data[j] == Combine(inv[j], shards, len)
    {
      var tables := RowTables(g, inv[r]);
      var row := Zeros(len);
      CombineNothing(inv[r][..0], shards[..0], len);
      for c := 0 to k
        invariant row == Combine(inv[r][..c], shards[..c], len)
      {
        row := XorThroughTable(row, tables[c], shards[c], inv[r][c]);
        CombineNext(inv[r], shards, len, c);
      }
      assert inv[r][..k] == inv[r] && shards[..k] == shards;
      data := data + [row];
    }
  }

  /** Recover the data shards from the survivors.  With k or more equal-length
      survivors it always succeeds; the result encodes to the first k of them,
      and is the original data whenever the survivors come from a stripe. */
  method Decode(g: Tables, cd: Codec, shards: seq<Option<Vec>>) returns (r: Result<Mat>)
    requires TablesOk(g) && ValidCodec(cd)
    ensures |shards| != cd.k + cd.m ==> r == Err(InvalidProfile(|shards|, cd.k))
    ensures |shards| == cd.k + cd.m ==>
      var rows := Survivors(shards, |shards|);
      var have := Present(shards, rows);
      && (|rows| < cd.k ==> r == Err(TooFewSurvivors(cd.k, |rows|)))
      && (|rows| >= cd.k && !Shape(have, |have|, |have[0]|) ==> exists i: nat :: Misfit(have, |have[0]|, i) && r == Err(ShardLength(|have[0]|, |have[i]|)))
      && (|rows| >= cd.k && Shape(have, |have|, |have[0]|) ==>
          && r.Ok? && Shape(r.value, cd.k, |have[0]|)
          && forall s :: 0 <= s < cd.k ==> Shard(cd, r.value, |have[0]|, rows[s]) == have[s])
  {
    hide Add, Mul, Dot, Combine, AnyRowsIndependent, Systematic, TablesFor, TablesOk;
    if |shards| != cd.k + cd.m { return Err(InvalidProfile(|shards|, cd.k)); }
    var rows := [];
    for i := 0 to |shards|
      invariant rows == Survivors(shards, i)
    {
      if shards[i].Some? { rows := rows + [i]; }
    }
    if |rows| < cd.k { return Err(TooFewSurvivors(cd.k, |rows|)); }
    var have := Present(shards, rows);
    var len := |have[0]|;
    var bad := FirstMismatch(have, len);
    if bad.Some? { return Err(ShardLength(len, |have[bad.value]|)); }
    var data := Solve(g, cd, rows[..cd.k], have[..cd.k], len);
    r := Ok(data);
  }

  /** The data whose shards at the k given rows are the given ones. */
  method Solve(g: Tables, cd: Codec, rows: seq<nat>, have: Mat, len: nat) returns (data: Mat)
    requires TablesOk(g) && ValidCodec(cd) && |rows| == cd.k && Increasing(rows, cd.k + cd.m) && Shape(have, cd.k, len)
    ensures Shape(data, cd.k, len) && forall s :: 0 <= s < cd.k ==> Shard(cd, data, len, rows[s]) == have[s]
  {
    hide Add, Mul, Dot, Combine, Injective, Systematic, Inverse, TablesFor, TablesOk;
    var sub := Select(cd.encodeMatrix, rows);
    assert Injective(sub, cd.k);
    var inv := InvertMatrix(g, sub);
    data := ApplyMatrix(g, inv.value, cd.k, have, len);
    InverseDecodes(sub, inv.value, cd.k, have, data, len);
  }

  lemma {:induction false} SurvivorCount(shards: seq<Option<Vec>>, n: nat, lost: set<nat>)
    requires n <= |shards| && forall i :: 0 <= i < n && shards[i].None? ==> i in lost
    ensures |Survivors(shards, n)| + |lost| >= n
    decreases n
  {
    if n > 0 {
      if shards[n - 1].None? {
        SurvivorCount(shards, n - 1, lost - {n - 1});
      } else {
        SurvivorCount(shards, n - 1, lost);
      }
    }
  }

  /** Survivors that come from a stripe decode to the data of that stripe. */
  method DecodeStripe(g: Tables, cd: Codec, shards: seq<Option<Vec>>, ghost data: Mat, ghost len: nat) returns (r: Result<Mat>)
    requires TablesOk(g) && ValidCodec(cd) && |shards| == cd.k + cd.m && StripeOf(cd, data, len, shards)
    requires |Survivors(shards, |shards|)| >= cd.k
    ensures r == Ok(data)
  {
    hide Add, Mul, Dot, Combine, TablesFor, TablesOk, Systematic, AnyRowsIndependent;
    r := Decode(g, cd, shards);
    ghost var rows := Survivors(shards, |shards|);
    ghost var have := Present(shards, rows);
    assert Shape(have, |have|, len);
    ShardsDetermineData(cd, r.value, data, len, rows[..cd.k]);
  }

  /** The codec's promise: for every profile, every equal-length data and every
      loss of at most m shards, decoding returns the data that was encoded. */
  method StripeSurvivesLosses(k: nat, m: nat, data: Mat, len: nat, lost: set<nat>) returns (r: Result<Mat>)
    requires 1 <= k && 1 <= m && k + m <= 255 && Shape(data, k, len) && |lost| <= m
    ensures r == Ok(data)
  {
    hide Add, Mul, Dot, Combine, TablesFor, TablesOk, Systematic, AnyRowsIndependent, OnePolynomial;
    var g := BuildTables();
    var made := NewCodec(g, k, m);
    var cd := made.value;
    var parity := Encode(cd, data);
    assert |data[0]| == len;
    var stripe := data + parity.value;
    var shards := seq(k + m, i requires 0 <= i < k + m => if i in lost then None else Some(stripe[i]));
    forall i | 0 <= i < |shards| && shards[i].Some? ensures shards[i].value == Shard(cd, data, len, i) {
      if i < k { DataShards(cd, data, len, i); }
    }
    SurvivorCount(shards, k + m, lost);
    r := DecodeStripe(g, cd, shards, data, len);
  }

  /** Rebuild one lost shard, data or parity. */
  method Reconstruct(g: Tables, cd: Codec, shards: seq<Option<Vec>>, lost: nat) returns (r: Result<Vec>)
    requires TablesOk(g) && ValidCodec(cd)
    ensures |shards| != cd.k + cd.m || lost >= cd.k + cd.m || shards[lost].Some? ==> r == Err(InvalidProfile(|shards|, lost))
    ensures |shards| == cd.k + cd.m && lost < |shards| && shards[lost].None? && |Survivors(shards, |shards|)| >= cd.k ==>
      forall data: Mat, len: nat :: StripeOf(cd, data, len, shards) ==> r == Ok(Shard(cd, data, len, lost))
  {
    hide Add, Mul, Dot, Combine, TablesFor, TablesOk, Systematic, AnyRowsIndependent;
    var n := cd.k + cd.m;
    if |shards| != n || lost >= n || shards[lost].Some? { return Err(InvalidProfile(|shards|, lost)); }
    var decoded := Decode(g, cd, shards);
    if decoded.Err? {
      forall data: Mat, len: nat | StripeOf(cd, data, len, shards) ensures |Survivors(shards, n)| < cd.k {
        assert forall i :: 0 <= i < |Survivors(shards, n)| ==> |Present(shards, Survivors(shards, n))[i]| == len;
      }
      return Err(decoded.error);
    }
    var rows := Survivors(shards, n);
    forall data: Mat, len: nat | StripeOf(cd, data, len, shards) && |rows| >= cd.k ensures decoded == Ok(data) {
      assert |Present(shards, rows)[0]| == len;
      ShardsDetermineData(cd, decoded.value, data, len, rows[..cd.k]);
    }
    if lost < cd.k {
      r := Ok(decoded.value[lost]);
      DataShards(cd, decoded.value, |decoded.value[0]|, lost);
    } else {
      var parity := Encode(cd, decoded.value);
      r := Ok(parity.value[lost - cd.k]);
    }
  }
}
