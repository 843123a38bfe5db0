/** The exp/log tables of the codec and the arithmetic read from them. */
module GfTables {
  import opened Gf256

  /** exp[i] = 2^i for i below 512, log[2^i] = i for i below 255. */
  datatype Tables = Tables(exp: seq<Elem>, log: seq<nat>)

  ghost predicate TablesOk(g: Tables)
  {
    && |g.exp| == 512 && |g.log| == 256
    && (forall i :: 0 <= i < 512 ==> g.exp[i] == Shift(i, ONE))
    && (forall i :: 0 <= i < 255 ==> g.log[Num(Shift(i, ONE))] == i)
  }

  /** The tables name the logarithm of every nonzero byte. */
  lemma LogLookup(g: Tables, a: Elem)
    requires TablesOk(g) && a != ZERO
    ensures g.log[Num(a)] == Log(a)
  {
    hide Shift, Num;
    assert g.log[Num(Shift(Log(a), ONE))] == Log(a);
  }

  function TableMul(g: Tables, a: Elem, b: Elem): (c: Elem)
    requires TablesOk(g)
    ensures c == Mul(a, b)
  {
    hide Shift, Mul;
    MulZero(b);
    MulZeroRight(a);
    if a == ZERO || b == ZERO then ZERO
    else
      LogLookup(g, a);
      LogLookup(g, b);
      PowerAdd(Log(a), Log(b));
      g.exp[g.log[Num(a)] + g.log[Num(b)]]
  }

  function TableInv(g: Tables, a: Elem): (c: Elem)
    requires TablesOk(g) && a != ZERO
    ensures c == Inv(a)
  {
    LogLookup(g, a);
    g.exp[255 - g.log[Num(a)]]
  }

  lemma ShiftStep(x: bv16)
    requires x < 256
    ensures var y := x << 1;
      var z := if y & 0x100 != 0 then y ^ 0x11D else y;
      z < 256 && Elem(z as bv8) == Double(Elem(x as bv8))
  {
    var y := x << 1;
    if y & 0x100 != 0 {
      assert (x as bv8) >> 7 == 1;
    } else {
      assert (x as bv8) >> 7 == 0;
    }
  }

  lemma WrapAround(i: nat)
    requires i >= 255
    ensures Shift(i, ONE) == Shift(i - 255, ONE)
  {
    hide Double;
    ShiftAdd(i - 255, 255, ONE);
    FullPeriod();
  }

  /** Build the tables by doubling from 1, reducing by 0x11D. */
  method BuildTables() returns (g: Tables)
    ensures TablesOk(g)
  {
    hide Double;
    var exp := seq(512, i => ZERO);
    var log: seq<nat> := seq(256, i => 0);
    var x: bv16 := 1;
    for i := 0 to 255
      invariant |exp| == 512 && |log| == 256 && x < 256
      invariant Elem(x as bv8) == Shift(i, ONE)
      invariant forall j :: 0 <= j < i ==> exp[j] == Shift(j, ONE)
      invariant forall j :: 0 <= j < i ==> log[Num(Shift(j, ONE))] == j
    {
      var b := Elem(x as bv8);
      forall j | 0 <= j < i ensures Num(Shift(j, ONE)) != Num(b) {
        PowersDiffer(j, i);
        if Num(Shift(j, ONE)) == Num(b) { NumInjective(Shift(j, ONE), b); }
      }
      exp := exp[i := b];
      log := log[Num(b) := i];
      ShiftStep(x);
      x := x << 1;
      if x & 0x100 != 0 { x := x ^ 0x11D; }
    }
    for i := 255 to 512
      invariant |exp| == 512
      invariant forall j :: 0 <= j < i ==> exp[j] == Shift(j, ONE)
    {
      WrapAround(i);
      exp := exp[i := exp[i - 255]];
    }
    g := Tables(exp, log);
  }
}
