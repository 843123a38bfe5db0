/** Content-defined chunking: a rolling fingerprint of the last 48 bytes places
    the boundaries, so they depend on content and not on position. */
module Chunker {
  import opened Gf2Poly
  import opened Rabin

  const USIZE: nat := 0x1_0000_0000_0000_0000

  /** Machine words for sizes. */
  type Usize = x: nat | x < USIZE

  datatype Config = Config(avg: Usize, min: Usize, max: Usize)

  datatype Result<T> = Ok(value: T) | InvalidConfig

  const WINDOW: nat := 48

  predicate IsPowerOfTwo(n: nat)
  {
    n == 1 || (n > 1 && n % 2 == 0 && IsPowerOfTwo(n / 2))
  }

  lemma {:induction false} PowersPass(k: nat)
    ensures Pow2(k) >= 1 && IsPowerOfTwo(Pow2(k))
  {
    if k > 0 {
      PowersPass(k - 1);
      assert Pow2(k) == 2 * Pow2(k - 1) && Pow2(k) / 2 == Pow2(k - 1);
    }
  }

  lemma {:induction false} PassingIsPower(n: nat) returns (k: nat)
    requires IsPowerOfTwo(n)
    ensures n == Pow2(k)
  {
    k := 0;
    if n > 1 {
      k := PassingIsPower(n / 2);
      k := k + 1;
    }
  }

  /** Halving while even down to one recognises exactly the powers of two. */
  lemma PowerOfTwo(n: nat)
    ensures IsPowerOfTwo(n) <==> exists k: nat :: n == Pow2(k)
  {
    hide IsPowerOfTwo, Pow2;
    if IsPowerOfTwo(n) {
      var k := PassingIsPower(n);
    }
    if k: nat :| n == Pow2(k) { PowersPass(k); }
  }

  predicate ValidConfig(c: Config)
  {
    IsPowerOfTwo(c.avg) && c.avg >= 1024 && 512 <= c.min < c.max <= (c.avg * 8) % USIZE
  }

  // ---------------------------------------------------------------------
  // What the chunker computes
  // ---------------------------------------------------------------------

  ghost function Zeros(n: nat): seq<Byte>
  {
    seq(n, i => 0 as Byte)
  }

  /** The last 48 of the first j bytes, with zeros before the start of the data. */
  ghost function Window(data: seq<Byte>, j: nat): (w: seq<Byte>)
    requires j <= |data|
    ensures |w| == WINDOW
  {
    (Zeros(WINDOW) + data[..j])[j..]
  }

  ghost function FingerprintOf(w: seq<Byte>): Poly
  {
    Residue(OfBytes(w), 8 * WINDOW)
  }

  /** The fingerprint after j bytes has zeros in the positions selected by avg. */
  ghost predicate Boundary(c: Config, data: seq<Byte>, j: nat)
    requires j <= |data| && c.avg > 0
  {
    forall b :: b in FingerprintOf(Window(data, j)) ==> b !in Bits(c.avg - 1)
  }

  ghost function HardEnd(c: Config, n: nat, i: nat): nat
    requires i <= n
  {
    if n - i <= c.max then n else i + c.max
  }

  ghost function EndFrom(c: Config, data: seq<Byte>, i: nat, j: nat): (e: nat)
    requires c.avg > 0 && i <= |data| && i <= j <= HardEnd(c, |data|, i)
    ensures j <= e <= HardEnd(c, |data|, i) && (j < HardEnd(c, |data|, i) ==> e > j)
    decreases |data| - j
  {
    if j == HardEnd(c, |data|, i) then j
    else if j + 1 - i >= c.min && Boundary(c, data, j + 1) then j + 1
    else EndFrom(c, data, i, j + 1)
  }

  /** Ends of the chunks of the data from position i on. */
  ghost function Ends(c: Config, data: seq<Byte>, i: nat): (s: seq<nat>)
    requires c.avg > 0 && c.max > 0 && i <= |data|
    ensures forall x :: 0 <= x < |s| ==> i < s[x] <= |data|
    decreases |data| - i
  {
    if i == |data| then [] else var e := EndFrom(c, data, i, i); [e] + Ends(c, data, e)
  }

  // ---------------------------------------------------------------------
  // Properties of the boundaries
  // ---------------------------------------------------------------------

  /** Where a chunk that starts at i must end: at the first boundary at least min away, but no further than max away
      and not beyond the end of the data. */
  ghost predicate RightEnd(c: Config, data: seq<Byte>, i: nat, e: nat)
    requires c.avg > 0
  {
    && i < e <= |data| && e - i <= c.max
    && (e < |data| && !(e - i >= c.min && Boundary(c, data, e)) ==> e - i == c.max)
    && forall k :: i < k < e && k - i >= c.min ==> !Boundary(c, data, k)
  }

  /** There is only one such place. */
  lemma OneRightEnd(c: Config, data: seq<Byte>, i: nat, e: nat, e': nat)
    requires c.avg > 0 && RightEnd(c, data, i, e) && RightEnd(c, data, i, e')
    ensures e == e'
  {
  }

  lemma {:induction false} FirstBoundary(c: Config, data: seq<Byte>, i: nat, j: nat)
    requires c.avg > 0 && i <= |data| && i <= j <= HardEnd(c, |data|, i)
    ensures var e := EndFrom(c, data, i, j);
      && (e < |data| && !(e - i >= c.min && Boundary(c, data, e)) ==> e - i == c.max)
      && forall k :: j < k < e && k - i >= c.min ==> !Boundary(c, data, k)
    decreases |data| - j
  {
    hide Boundary;
    if j < HardEnd(c, |data|, i) && !(j + 1 - i >= c.min && Boundary(c, data, j + 1)) {
      FirstBoundary(c, data, i, j + 1);
    }
  }

  /** A chunk ends where it must. */
  lemma EndIsRight(c: Config, data: seq<Byte>, i: nat)
    requires c.avg > 0 && c.max > 0 && i < |data|
    ensures RightEnd(c, data, i, EndFrom(c, data, i, i))
  {
    hide Boundary;
    FirstBoundary(c, data, i, i);
  }

  /** So does every chunk of the data. */
  lemma {:induction false} AllEndsRight(c: Config, data: seq<Byte>, i: nat, x: nat)
    requires c.avg > 0 && c.max > 0 && i <= |data| && x < |Ends(c, data, i)|
    ensures var s := [i] + Ends(c, data, i); RightEnd(c, data, s[x], s[x + 1])
    decreases |data| - i
  {
    hide RightEnd, EndFrom;
    EndIsRight(c, data, i);
    if x > 0 { AllEndsRight(c, data, EndFrom(c, data, i, i), x - 1); }
  }

  /** Cut points from i to the end of the data, each where the chunk before it must end, are the ones computed. */
  lemma {:induction false} OnlyEnds(c: Config, data: seq<Byte>, i: nat, s: seq<nat>)
    requires c.avg > 0 && c.max > 0 && i <= |data| && s != [] && s[0] == i && s[|s| - 1] == |data|
    requires forall x :: 0 <= x < |s| - 1 ==> RightEnd(c, data, s[x], s[x + 1])
    ensures s == [i] + Ends(c, data, i)
    decreases |s|
  {
    hide EndFrom;
    if |s| > 1 {
      assert RightEnd(c, data, s[0], s[1]);
      EndIsRight(c, data, i);
      OneRightEnd(c, data, i, s[1], EndFrom(c, data, i, i));
      OnlyEnds(c, data, s[1], s[1..]);
    }
  }

  ghost predicate Ones(a: Poly, k: nat)
  {
    forall b: nat :: b in a <==> b < k
  }

  lemma {:induction false} LowOnes(k: nat)
    ensures Ones(Bits(Pow2(k) - 1), k)
  {
    if k > 0 {
      LowOnes(k - 1);
      OneMoreBit(Pow2(k - 1) - 1, k - 1);
    }
  }

  lemma OneMoreBit(n: nat, k: nat)
    requires Ones(Bits(n), k)
    ensures Ones(Bits(2 * n + 1), k + 1)
  {
    var m := 2 * n + 1;
    assert m % 2 == 1 && m / 2 == n;
    assert Bits(m) == iset{0} + Shift(Bits(n), 1);
    forall b: nat ensures b in Bits(m) <==> b < k + 1 {
      assert b in Shift(Bits(n), 1) <==> Lifted(Bits(n), 1, b);
      if b > 0 { assert b - 1 in Bits(n) <==> b - 1 < k; }
    }
  }

  lemma {:induction false} LowBitsClear(a: Poly, n: nat, k: nat)
    requires k <= n
    ensures Multiple(Number(a, n), Pow2(k)) <==> forall b: nat :: b < k ==> b !in a
    decreases k
  {
    if k > 0 {
      var rest := ShiftDown(a, 1);
      LowBitsClear(rest, n - 1, k - 1);
      forall b: nat ensures b in rest <==> b + 1 in a { assert b in rest <==> Lowered(a, 1, b); }
      HalfMultiple(Number(rest, n - 1), Pow2(k - 1), if 0 in a then 1 else 0);
      if forall b: nat :: b < k - 1 ==> b !in rest {
        forall b: nat | 0 < b < k ensures b !in a { assert b - 1 !in rest; }
      } else {
        var b: nat :| b < k - 1 && b in rest;
        assert b + 1 in a;
      }
    } else {
      assert Number(a, n) == Times(1, Number(a, n));
    }
  }

  function Times(m: nat, q: nat): nat
  {
    m * q
  }

  ghost predicate Multiple(x: nat, m: nat)
  {
    exists q: nat :: x == Times(m, q)
  }

  lemma HalfMultiple(r: nat, m: nat, bit: nat)
    requires bit < 2
    ensures Multiple(bit + 2 * r, 2 * m) <==> bit == 0 && Multiple(r, m)
  {
    if Multiple(bit + 2 * r, 2 * m) {
      var q: nat :| bit + 2 * r == Times(2 * m, q);
      TwiceOver(m, q);
      assert r == Times(m, q);
    }
    if bit == 0 && Multiple(r, m) {
      var q: nat :| r == Times(m, q);
      TwiceOver(m, q);
      assert bit + 2 * r == Times(2 * m, q);
    }
  }

  lemma TwiceOver(m: nat, q: nat)
    ensures Times(2 * m, q) == 2 * Times(m, q)
  {
  }

  /** A boundary is where the fingerprint of the last 48 bytes, as a number, is a multiple of the average size. */
  lemma BoundaryIsMultiple(c: Config, data: seq<Byte>, j: nat)
    requires ValidConfig(c) && j <= |data|
    ensures c.avg > 0 && (Boundary(c, data, j) <==> Multiple(Number(FingerprintOf(Window(data, j)), 64), c.avg))
  {
    hide FingerprintOf, Window, Bits, Number;
    var k := PassingIsPower(c.avg);
    assert k <= 64 by {
      Pow64();
      if k > 64 { PowGrows(64, k); }
    }
    LowOnes(k);
    LowBitsClear(FingerprintOf(Window(data, j)), 64, k);
  }

  lemma {:induction false} PowGrows(a: nat, b: nat)
    requires a <= b
    ensures Pow2(a) <= Pow2(b)
    decreases b
  {
    if a < b { PowGrows(a, b - 1); }
  }

  /** Every chunk is between min and max long; only the last may be shorter. */
  lemma {:induction false} ChunkSizes(c: Config, data: seq<Byte>, i: nat, x: nat)
    requires ValidConfig(c) && i <= |data| && x < |Ends(c, data, i)|
    ensures var s := [i] + Ends(c, data, i);
      && s[x] < s[x + 1] <= s[x] + c.max
      && (s[x + 1] < |data| ==> s[x + 1] - s[x] >= c.min)
    decreases |data| - i
  {
    var e := EndFrom(c, data, i, i);
    FirstBoundary(c, data, i, i);
    if x > 0 {
      ChunkSizes(c, data, e, x - 1);
    }
  }

  /** The boundaries run from the start to the end of the data. */
  lemma {:induction false} EndsAtEnd(c: Config, data: seq<Byte>, i: nat)
    requires c.avg > 0 && c.max > 0 && i <= |data|
    ensures var s := [i] + Ends(c, data, i); s[|s| - 1] == |data|
    decreases |data| - i
  {
    if i < |data| { EndsAtEnd(c, data, EndFrom(c, data, i, i)); }
  }

  ghost function Concat(parts: seq<seq<Byte>>): seq<Byte>
  {
    if parts == [] then [] else parts[0] + Concat(parts[1..])
  }

  ghost predicate Ascending(s: seq<nat>, n: nat)
  {
    (forall x :: 0 <= x < |s| ==> s[x] <= n) && forall x, y :: 0 <= x < y < |s| ==> s[x] <= s[y]
  }

  lemma AscendingCons(i: nat, s: seq<nat>, n: nat)
    requires Ascending(s, n) && s != [] && i <= s[0]
    ensures Ascending([i] + s, n)
  {
  }

  /** The pieces between consecutive offsets. */
  ghost function Pieces(data: seq<Byte>, s: seq<nat>): seq<seq<Byte>>
    requires Ascending(s, |data|)
  {
    if |s| < 2 then [] else [data[s[0]..s[1]]] + Pieces(data, s[1..])
  }

  lemma OnePiece(data: seq<Byte>, i: nat, s: seq<nat>)
    requires s != [] && i <= s[0] && Ascending(s, |data|) && Concat(Pieces(data, s)) == data[s[0]..]
    ensures Ascending([i] + s, |data|) && Concat(Pieces(data, [i] + s)) == data[i..]
  {
    var all := [i] + s;
    AscendingCons(i, s, |data|);
    assert all[1..] == s;
    assert Pieces(data, all) == [data[i..s[0]]] + Pieces(data, s);
    assert Pieces(data, all)[1..] == Pieces(data, s);
    assert data[i..] == data[i..s[0]] + data[s[0]..];
  }

  /** The chunks put together are the data. */
  lemma {:induction false} ChunksReassemble(c: Config, data: seq<Byte>, i: nat)
    requires c.avg > 0 && c.max > 0 && i <= |data|
    ensures Ascending([i] + Ends(c, data, i), |data|) && Concat(Pieces(data, [i] + Ends(c, data, i))) == data[i..]
    decreases |data| - i
  {
    if i < |data| {
      hide Concat, Pieces, Ascending, EndFrom;
      var e := EndFrom(c, data, i, i);
      ChunksReassemble(c, data, e);
      OnePiece(data, i, [e] + Ends(c, data, e));
    }
  }

  // ---------------------------------------------------------------------
  // Resynchronisation
  // ---------------------------------------------------------------------

  /** Far enough into a common suffix, both windows are the same. */
  lemma SameWindow(p: seq<Byte>, q: seq<Byte>, s: seq<Byte>, k: nat)
    requires WINDOW <= k <= |s|
    ensures Window(p + s, |p| + k) == Window(q + s, |q| + k)
  {
    WindowInSuffix(p, s, k);
    WindowInSuffix(q, s, k);
  }

  lemma WindowInSuffix(p: seq<Byte>, s: seq<Byte>, k: nat)
    requires WINDOW <= k <= |s|
    ensures Window(p + s, |p| + k) == s[k - WINDOW..k]
  {
    var all := Zeros(WINDOW) + (p + s)[..|p| + k];
    assert (p + s)[..|p| + k] == p + s[..k];
    assert all[|p| + k..] == s[k - WINDOW..k];
  }

  lemma {:induction false} SameEnd(c: Config, p: seq<Byte>, q: seq<Byte>, s: seq<Byte>, i: nat, j: nat)
    requires ValidConfig(c) && i <= j && i <= |s| && |p| + j <= HardEnd(c, |p + s|, |p| + i)
    ensures |q| + j <= HardEnd(c, |q + s|, |q| + i)
    ensures EndFrom(c, p + s, |p| + i, |p| + j) - |p| == EndFrom(c, q + s, |q| + i, |q| + j) - |q|
    decreases |s| - j
  {
    hide ValidConfig, FingerprintOf, Window, Bits;
    AvgPositive(c);
    if |p| + j < HardEnd(c, |p + s|, |p| + i) {
      if j + 1 - i >= c.min { SameWindow(p, q, s, j + 1); }
      if !(j + 1 - i >= c.min && Boundary(c, p + s, |p| + j + 1)) { SameEnd(c, p, q, s, i, j + 1); }
    }
  }

  /** From a common boundary on, the chunk ends in the common suffix coincide. */
  lemma {:induction false} SameEnds(c: Config, p: seq<Byte>, q: seq<Byte>, s: seq<Byte>, i: nat)
    requires ValidConfig(c) && i <= |s|
    ensures var a, b := Ends(c, p + s, |p| + i), Ends(c, q + s, |q| + i);
      |a| == |b| && forall x :: 0 <= x < |a| ==> a[x] - |p| == b[x] - |q|
    decreases |s| - i
  {
    hide ValidConfig, EndFrom;
    AvgPositive(c);
    if i < |s| {
      SameEnd(c, p, q, s, i, i);
      var e, d := EndFrom(c, p + s, |p| + i, |p| + i), EndFrom(c, q + s, |q| + i, |q| + i);
      SameEnds(c, p, q, s, e - |p|);
      assert Ends(c, p + s, |p| + i) == [e] + Ends(c, p + s, e) && Ends(c, q + s, |q| + i) == [d] + Ends(c, q + s, d);
    }
  }

  /** The ends after a given end are the ends of the rest. */
  lemma {:induction false} EndsAfter(c: Config, data: seq<Byte>, i: nat, at: nat, e: nat)
    requires c.avg > 0 && c.max > 0 && i <= |data| && (at == i || at in Ends(c, data, i)) && e > at
    ensures at <= |data| && (e in Ends(c, data, i) <==> e in Ends(c, data, at))
    decreases |data| - i
  {
    if at != i {
      var first := EndFrom(c, data, i, i);
      assert Ends(c, data, i) == [first] + Ends(c, data, first);
      EndsAfter(c, data, first, at, e);
      assert at >= first;
    }
  }

  lemma ShiftedMember(a: seq<nat>, b: seq<nat>, p: nat, q: nat, k: nat)
    requires |a| == |b| && forall x :: 0 <= x < |a| ==> a[x] - p == b[x] - q
    ensures p + k in a ==> q + k in b
  {
    if p + k in a {
      var x :| 0 <= x < |a| && a[x] == p + k;
      assert b[x] == q + k;
    }
  }

  /** Chunk resynchronisation: two inputs with a common suffix that both have a boundary
      where it starts have the same boundaries from there on, up to the shift. */
  lemma Resynchronise(c: Config, p: seq<Byte>, q: seq<Byte>, s: seq<Byte>, k: nat)
    requires ValidConfig(c) && 0 < k
    requires |p| == 0 || |p| in Ends(c, p + s, 0)
    requires |q| == 0 || |q| in Ends(c, q + s, 0)
    ensures |p| + k in Ends(c, p + s, 0) <==> |q| + k in Ends(c, q + s, 0)
  {
    hide ValidConfig, Ends;
    AvgPositive(c);
    Continues(c, p, s, k);
    Continues(c, q, s, k);
    MovedMember(c, p, q, s, k);
    MovedMember(c, q, p, s, k);
  }

  lemma Continues(c: Config, p: seq<Byte>, s: seq<Byte>, k: nat)
    requires c.avg > 0 && c.max > 0 && 0 < k && (|p| == 0 || |p| in Ends(c, p + s, 0))
    ensures |p| + k in Ends(c, p + s, 0) <==> |p| + k in Ends(c, p + s, |p|)
  {
    hide Ends;
    EndsAfter(c, p + s, 0, |p|, |p| + k);
  }

  lemma MovedMember(c: Config, p: seq<Byte>, q: seq<Byte>, s: seq<Byte>, k: nat)
    requires ValidConfig(c)
    ensures c.avg > 0 && c.max > 0 && (|p| + k in Ends(c, p + s, |p|) ==> |q| + k in Ends(c, q + s, |q|))
  {
    hide ValidConfig, Ends;
    AvgPositive(c);
    SameEnds(c, p, q, s, 0);
    ShiftedMember(Ends(c, p + s, |p|), Ends(c, q + s, |q|), |p|, |q|, k);
  }

  // ---------------------------------------------------------------------
  // The tables
  // ---------------------------------------------------------------------

  /** table[b] is b * x^384, reduced. */
  ghost predicate OutTable(table: seq<Word>)
  {
    |table| == 256 && forall b :: 0 <= b < 256 ==> Below(P(table[b]), 54) && Congruent(P(table[b]), Shift(Bits(b), 8 * WINDOW))
  }

  /** high[s] is s * x^53, reduced. */
  ghost predicate SpillTable(high: seq<Word>)
  {
    |high| == 512 && forall s :: 0 <= s < 512 ==> Below(P(high[s]), 54) && Congruent(P(high[s]), Shift(Bits(s), 53))
  }

  method BuildOutTable() returns (table: seq<Word>)
    ensures OutTable(table)
  {
    hide Congruent, Bits, WordOf, P, Product;
    var power := PowX(8 * WINDOW);
    table := [];
    for b := 0 to 256
      invariant |table| == b
      invariant forall x :: 0 <= x < b ==> Below(P(table[x]), 54) && Congruent(P(table[x]), Shift(Bits(x), 8 * WINDOW))
    {
      assert Pow2(8) == 256;
      PWordOf(b, 8);
      var slot := PolyMulMod(WordOf(b), power);
      ProductIsShift(WordOf(b), power, 8 * WINDOW);
      CongruentTrans(P(slot), Product(P(WordOf(b)), P(power), 64), Shift(Bits(b), 8 * WINDOW));
      table := table + [slot];
    }
  }

  method BuildSpillTable() returns (high: seq<Word>)
    ensures SpillTable(high)
  {
    hide Congruent, Bits, WordOf, P, Residue;
    high := [];
    for s := 0 to 512
      invariant |high| == s
      invariant forall x :: 0 <= x < s ==> Below(P(high[x]), 54) && Congruent(P(high[x]), Shift(Bits(x), 53))
    {
      assert Pow2(9) == 512;
      PWordOf(s, 9);
      PShl(WordOf(s), 53);
      var slot := ModPoly(Shl(WordOf(s), 53));
      CongruentSym(Shift(Bits(s), 53), P(slot));
      high := high + [slot];
    }
  }

  // ---------------------------------------------------------------------
  // One byte
  // ---------------------------------------------------------------------

  lemma {:induction false} NumberStable(a: Poly, n: nat, m: nat)
    requires Below(a, n) && n <= m
    ensures Number(a, m) == Number(a, n)
    decreases m
  {
    if n > 0 {
      LowerBelow(a, n);
      NumberStable(ShiftDown(a, 1), n - 1, m - 1);
    } else if m > 0 {
      assert ShiftDown(a, 1) == a by { assert forall j: nat :: j !in a; }
      NumberStable(a, 0, m - 1);
    }
  }

  /** The nine bits above position 53 index the spill table. */
  lemma SpillIndex(f: Word)
    requires Below(P(f), 62)
    ensures NumberOf(Shr(f, 53), 64) < 512 && Bits(NumberOf(Shr(f, 53), 64)) == ShiftDown(P(f), 53)
  {
    hide Bits;
    var hi := ShiftDown(P(f), 53);
    PShr(f, 53);
    assert Below(hi, 9) by {
      forall j | j in hi ensures j < 9 { assert Lowered(P(f), 53, j); }
    }
    PNumberOf(Shr(f, 53), 64);
    NumberStable(hi, 9, 64);
    BitsOfNumber(hi, 9);
    assert Pow2(9) == 512;
  }

  /** A word is its low 53 bits plus its spill. */
  lemma SplitAt53(f: Word)
    ensures P(f) == Add(P(f * LowMask(53)), Shift(ShiftDown(P(f), 53), 53))
  {
    var up, low := Shift(ShiftDown(P(f), 53), 53), P(f * LowMask(53));
    forall j: nat ensures j in P(f) <==> j in Add(low, up) {
      assert j in up <==> Lifted(ShiftDown(P(f), 53), 53, j);
      assert j >= 53 ==> (j - 53 in ShiftDown(P(f), 53) <==> Lowered(P(f), 53, j - 53));
      assert j in low <==> j in P(f) && j < 53;
    }
  }

  /** Replacing the spill by its table entry reduces the word. */
  lemma SpillReduces(f: Word, high: seq<Word>, f': Word)
    requires Below(P(f), 62) && SpillTable(high) && NumberOf(Shr(f, 53), 64) < 512
    requires f' == Xor(f * LowMask(53), high[NumberOf(Shr(f, 53), 64)])
    ensures Below(P(f'), 54) && Congruent(P(f), P(f'))
  {
    hide Congruent, Bits, NumberOf;
    var low := f * LowMask(53);
    var entry := high[NumberOf(Shr(f, 53), 64)];
    SpillIndex(f);
    SplitAt53(f);
    PXor(low, entry);
    assert Below(P(low), 54);
    AddBelow(P(low), P(entry), 54);
    CongruentRefl(P(low));
    CongruentSym(P(entry), Shift(ShiftDown(P(f), 53), 53));
    CongruentAdd(P(low), P(low), Shift(ShiftDown(P(f), 53), 53), P(entry));
  }

  /** Shifting in a byte: the low eight positions are free, so or is addition. */
  lemma ShiftIn(f: Word, b: Byte)
    requires Below(P(f), 54)
    ensures P(Shl(f, 8) + WordOf(b as int)) == Add(Shift(P(f), 8), Bits(b as int))
    ensures Below(P(Shl(f, 8) + WordOf(b as int)), 62)
  {
    hide Bits, WordOf;
    assert Pow2(8) == 256;
    PWordOf(b as int, 8);
    PShl(f, 8);
    var u := Shl(f, 8) + WordOf(b as int);
    forall j: nat ensures j in P(u) <==> j in Add(Shift(P(f), 8), Bits(b as int)) {
      assert j in P(u) <==> j in P(Shl(f, 8)) || j in P(WordOf(b as int));
      assert j in Shift(P(f), 8) ==> j >= 8;
    }
    assert Below(Shift(P(f), 8), 62);
  }

  /** One step of the rolling hash gives the fingerprint of the moved window. */
  lemma RollIsRight(w: seq<Byte>, b: Byte, f: Word, out: Word, f1: Word, f': Word)
    requires |w| == WINDOW && P(f) == FingerprintOf(w) && Below(P(out), 54) && Congruent(P(out), Shift(Bits(w[0] as int), 8 * WINDOW))
    requires f1 == Xor(Shl(f, 8) + WordOf(b as int), out) && Below(P(f'), 54) && Congruent(P(f1), P(f'))
    ensures P(f') == FingerprintOf(w[1..] + [b])
  {
    hide Congruent, Bits, WordOf, OfBytes, Residue, P, Shl, Xor;
    var poly, next := OfBytes(w), OfBytes(w[1..] + [b]);
    OfBytesBelow(w);
    ResidueIsRemainder(poly, 8 * WINDOW);
    CongruentShift(poly, P(f), 8);
    ShiftIn(f, b);
    CongruentRefl(Bits(b as int));
    CongruentAdd(Shift(poly, 8), Shift(P(f), 8), Bits(b as int), Bits(b as int));
    CongruentSym(P(out), Shift(Bits(w[0] as int), 8 * WINDOW));
    CongruentAdd(Add(Shift(poly, 8), Bits(b as int)), P(Shl(f, 8) + WordOf(b as int)), Shift(Bits(w[0] as int), 8 * WINDOW), P(out));
    PXor(Shl(f, 8) + WordOf(b as int), out);
    Slide(w, b);
    CongruentTrans(next, P(f1), P(f'));
    OfBytesBelow(w[1..] + [b]);
    IsResidue(next, 8 * WINDOW, P(f'));
  }

  lemma {:induction false} ZeroWindow(n: nat)
    ensures OfBytes(Zeros(n)) == iset{}
  {
    if n > 0 {
      assert Zeros(n) == Zeros(n - 1) + [0];
      ZeroWindow(n - 1);
      LastByte(Zeros(n - 1), 0);
      assert Bits(0) == iset{};
    }
  }

  lemma ZeroFingerprint()
    ensures P({}) == FingerprintOf(Zeros(WINDOW))
  {
    hide Residue;
    ZeroWindow(WINDOW);
    NoBits({});
    CongruentRefl(iset{});
    IsResidue(iset{}, 8 * WINDOW, iset{});
  }

  lemma WindowMoves(data: seq<Byte>, j: nat)
    requires j < |data|
    ensures Window(data, j + 1) == Window(data, j)[1..] + [data[j]]
  {
    assert data[..j + 1] == data[..j] + [data[j]];
  }

  lemma FreshWindow(w: seq<Byte>)
    requires |w| == WINDOW && forall i :: 0 <= i < WINDOW ==> w[i] == 0
    ensures w == Zeros(WINDOW) && w[0..] + w[..0] == w
  {
  }

  class Chunker {
    const config: Config
    const mask: Word
    const table: seq<Word>
    const reduceHi: seq<Word>
    /** Circular buffer of recent bytes. */
    const window: array<Byte>
    var windowPos: nat
    var fingerprint: Word

    ghost predicate Valid()
      reads this, window
    {
      && ValidConfig(config) && P(mask) == Bits(config.avg - 1)
      && OutTable(table) && SpillTable(reduceHi)
      && window.Length == WINDOW && windowPos < WINDOW
      && Below(P(fingerprint), 54) && P(fingerprint) == FingerprintOf(Recent())
    }

    /** The window, oldest byte first. */
    ghost function Recent(): (w: seq<Byte>)
      requires windowPos <= window.Length
      reads this, window
    {
      window[windowPos..] + window[..windowPos]
    }

    constructor (c: Config, outTable: seq<Word>, spillTable: seq<Word>, m: Word)
      requires ValidConfig(c) && OutTable(outTable) && SpillTable(spillTable) && P(m) == Bits(c.avg - 1)
      ensures Valid() && config == c && fresh(window)
    {
      config := c;
      mask := m;
      table := outTable;
      reduceHi := spillTable;
      window := new Byte[WINDOW](_ => 0);
      windowPos := 0;
      fingerprint := {};
      new;
      hide ValidConfig, OutTable, SpillTable, Bits, Residue, OfBytes, FingerprintOf, P;
      FreshWindow(window[..]);
      ZeroFingerprint();
      NoBits({});
    }

    /** Rejects a bad configuration, else builds the tables. */
    static method New(c: Config) returns (r: Result<Chunker>)
      ensures r.Ok? <==> ValidConfig(c)
      ensures r.Ok? ==> fresh(r.value) && fresh(r.value.window) && r.value.Valid() && r.value.config == c
    {
      if !IsPowerOfTwo(c.avg) || c.avg < 1024 {
        return InvalidConfig;
      }
      if c.min < 512 || c.max <= c.min || c.max > (c.avg * 8) % USIZE {
        return InvalidConfig;
      }
      hide OutTable, SpillTable, Bits, WordOf, P, Pow2;
      var outTable := BuildOutTable();
      var spillTable := BuildSpillTable();
      Pow64();
      PWordOf(c.avg - 1, 64);
      var chunker := new Chunker(c, outTable, spillTable, WordOf(c.avg - 1));
      r := Ok(chunker);
    }

    method Reset()
      requires Valid()
      modifies this, window
      ensures Valid() && Recent() == Zeros(WINDOW)
    {
      hide ValidConfig, OutTable, SpillTable, Bits, Residue, OfBytes, FingerprintOf, P;
      for i := 0 to WINDOW
        invariant forall x :: 0 <= x < i ==> window[x] == 0
      {
        window[i] := 0;
      }
      windowPos := 0;
      fingerprint := {};
      assert Recent() == Zeros(WINDOW);
      ZeroFingerprint();
      NoBits({});
    }

    /** Slides the window by one byte. */
    method PushByte(byte: Byte)
      requires Valid()
      modifies this, window
      ensures Valid() && Recent() == old(Recent())[1..] + [byte]
    {
      hide ValidConfig, Congruent, Bits, Residue, OfBytes, FingerprintOf, P, WordOf, NumberOf, Shl, Shr, Xor, LowMask;
      ghost var w := Recent();
      var out := window[windowPos];
      window[windowPos] := byte;
      windowPos := windowPos + 1;
      if windowPos == WINDOW {
        windowPos := 0;
      }
      assert Recent() == w[1..] + [byte];
      ghost var f := fingerprint;
      var fp := Shl(fingerprint, 8) + WordOf(byte as int);
      ShiftIn(f, byte);
      fp := Xor(fp, table[out as int]);
      assert Below(P(fp), 62) by {
        PXor(Shl(f, 8) + WordOf(byte as int), table[out as int]);
        AddBelow(P(Shl(f, 8) + WordOf(byte as int)), P(table[out as int]), 62);
      }
      SpillIndex(fp);
      var spill := NumberOf(Shr(fp, 53), 64);
      fingerprint := Xor(fp * LowMask(53), reduceHi[spill]);
      SpillReduces(fp, reduceHi, fingerprint);
      RollIsRight(w, byte, f, table[out as int], fp, fingerprint);
    }

    predicate IsBoundary()
      reads this
    {
      fingerprint * mask == {}
    }

    lemma BoundaryTest(data: seq<Byte>, j: nat)
      requires Valid() && j <= |data| && Recent() == Window(data, j)
      ensures IsBoundary() <==> Boundary(config, data, j)
    {
      hide Bits, FingerprintOf, ValidConfig;
      assert config.avg > 0 by { assert ValidConfig(config); AvgPositive(config); }
      forall b: nat ensures b in fingerprint * mask <==> b in P(fingerprint) && b in P(mask) { }
      if forall b: nat :: b !in fingerprint * mask { assert fingerprint * mask == {}; }
    }

    /** Pushes bytes from position i until the chunk that starts there ends. */
    method FindEnd(data: seq<Byte>, i: nat) returns (end: nat)
      requires i < |data| && config.avg > 0 && config.max > 0
      requires Valid() && Recent() == Window(data, i)
      modifies this, window
      ensures Valid() && end == EndFrom(config, data, i, i) && RightEnd(config, data, i, end) && Recent() == Window(data, end)
    {
      hide ValidConfig, OutTable, SpillTable, Bits, FingerprintOf, P, Boundary, Window, Below, RightEnd;
      EndIsRight(config, data, i);
      var n := |data|;
      var hardEnd := i + if n - i <= config.max then n - i else config.max;
      end := hardEnd;
      var j := i;
      while j < hardEnd
        invariant i <= j <= hardEnd && end == hardEnd && Valid() && Recent() == Window(data, j)
        invariant EndFrom(config, data, i, j) == EndFrom(config, data, i, i)
      {
        PushByte(data[j]);
        WindowMoves(data, j);
        j := j + 1;
        BoundaryTest(data, j);
        if j - i >= config.min && IsBoundary() {
          end := j;
          break;
        }
      }
    }

    /** Boundary offsets of the data: from 0 to its length. */
    method ChunkBoundaries(data: seq<Byte>) returns (offsets: seq<nat>)
      requires Valid()
      modifies this, window
      ensures Valid() && config.avg > 0 && config.max > 0 && offsets == [0] + Ends(config, data, 0)
      ensures offsets != [] && offsets[|offsets| - 1] == |data| && forall x :: 0 <= x < |offsets| - 1 ==> RightEnd(config, data, offsets[x], offsets[x + 1])
    {
      hide ValidConfig, OutTable, SpillTable, Bits, FingerprintOf, P, Boundary, EndFrom, Below, RightEnd;
      AvgPositive(config);
      Reset();
      var n := |data|;
      offsets := [0];
      var i := 0;
      assert data[..0] == [] && Window(data, 0) == Zeros(WINDOW);
      while i < n
        invariant i <= n && Valid() && Recent() == Window(data, i)
        invariant offsets != [] && offsets + Ends(config, data, i) == [0] + Ends(config, data, 0) && offsets[|offsets| - 1] == i
        invariant forall x :: 0 <= x < |offsets| - 1 ==> RightEnd(config, data, offsets[x], offsets[x + 1])
      {
        var end := FindEnd(data, i);
        assert Ends(config, data, i) == [end] + Ends(config, data, end);
        offsets := offsets + [end];
        i := end;
      }
    }

    /** The chunks themselves: what lies between each two neighbouring boundaries. */
    method Chunk(data: seq<Byte>) returns (chunks: seq<seq<Byte>>)
      requires Valid()
      modifies this, window
      ensures Valid() && config.avg > 0 && config.max > 0 && Ascending([0] + Ends(config, data, 0), |data|)
      ensures chunks == Pieces(data, [0] + Ends(config, data, 0)) && Concat(chunks) == data
    {
      hide Valid, Ends, Concat, Pieces;
      var offsets := ChunkBoundaries(data);
      ChunksReassemble(config, data, 0);
      chunks := Slice(data, offsets);
      assert data[0..] == data;
    }
  }

  method Slice(data: seq<Byte>, offsets: seq<nat>) returns (chunks: seq<seq<Byte>>)
    requires offsets != [] && Ascending(offsets, |data|)
    ensures chunks == Pieces(data, offsets)
  {
    chunks := [];
    assert offsets[0..] == offsets;
    for x := 0 to |offsets| - 1
      invariant Ascending(offsets[x..], |data|) && chunks + Pieces(data, offsets[x..]) == Pieces(data, offsets)
    {
      assert offsets[x..][1..] == offsets[x + 1..];
      chunks := chunks + [data[offsets[x]..offsets[x + 1]]];
    }
  }

  lemma Pow64()
    ensures Pow2(64) == USIZE
  {
    hide Pow2;
    Pow53();
    Pow2Sum(54, 10);
    assert Pow2(10) == 1024 by { Pow10(); }
  }

  lemma Pow10()
    ensures Pow2(10) == 1024
  {
    assert Pow2(5) == 32;
    Pow2Sum(5, 5);
  }

  lemma AvgPositive(c: Config)
    requires ValidConfig(c)
    ensures c.avg > 0 && c.max > 0 && c.min >= 512
  {
  }
}
