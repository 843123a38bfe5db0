/** A floor that is missed: the tree after five calls, node by node. */
module DiskFloor {
  import opened Options
  import opened BeTreeModel
  import opened BeTreeMessages
  import opened BeTreeContent
  import opened BeTreeSplit
  import opened BeTreeState
  import opened BeTreeCut
  import opened BT = BeTree
  import opened DiskModel
  import opened DiskSplit
  import opened DiskScan
  import opened DiskHistory
  import opened DiskPending
  import opened DT = DiskTree

  /** The same operation on the same entries gives the same entries. */
  lemma {:induction false} SameEntries<V>(a: seq<Entry<V>>, b: seq<Entry<V>>)
    requires Sorted(a) && Sorted(b) && forall e :: e in a <==> e in b
    ensures a == b
    decreases |a|
  {
    if a == [] {
      SomeEntry(b);
    } else {
      var x := |a| - 1;
      assert a[x] in a && b != [];
      var y := |b| - 1;
      assert a[x] == b[y] by { SameLast(a, b); }
      forall e ensures e in a[..x] <==> e in b[..y] {
        BeforeLast(a, e);
        BeforeLast(b, e);
      }
      SameEntries(a[..x], b[..y]);
    }
  }

  lemma SomeEntry<V>(b: seq<Entry<V>>)
    ensures b == [] || exists e :: e in b
  {
    if b != [] { assert b[0] in b; }
  }

  lemma SameLast<V>(a: seq<Entry<V>>, b: seq<Entry<V>>)
    requires Sorted(a) && Sorted(b) && a != [] && b != [] && forall e :: e in a <==> e in b
    ensures a[|a| - 1] == b[|b| - 1]
  {
    var x, y := |a| - 1, |b| - 1;
    assert a[x] in b && b[y] in a;
    var i :| 0 <= i < |b| && b[i] == a[x];
    var j :| 0 <= j < |a| && a[j] == b[y];
    assert i < y ==> b[i].key < b[y].key;
    assert j < x ==> a[j].key < a[x].key;
  }

  lemma BeforeLast<V>(a: seq<Entry<V>>, e: Entry<V>)
    requires Sorted(a) && a != []
    ensures e in a[..|a| - 1] <==> e in a && e != a[|a| - 1]
  {
    assert a == a[..|a| - 1] + [a[|a| - 1]];
    if e in a[..|a| - 1] {
      var i :| 0 <= i < |a| - 1 && a[i] == e;
      assert a[i].key < a[|a| - 1].key;
    }
  }

  lemma AppliedOnce<V>(es: seq<Entry<V>>, key: Key, op: Op<V>, a: seq<Entry<V>>, b: seq<Entry<V>>)
    requires Applied(es, key, op, a) && Applied(es, key, op, b)
    ensures a == b
  {
    SameEntries(a, b);
  }

  /** A step on one leaf leaves one possible tree. */
  lemma KnownPut<V>(v: View<V>, v': View<V>, key: Key, op: Op<V>, i: nat, items: seq<Entry<V>>)
    requires Inv(v) && PutStep(v, v', key, op) && i < |v.n| == |v.g| && v.n[i].Leaf? && In(v.g[i], key)
    requires Applied(v.n[i].entries, key, op, items)
    ensures v' == LeafPut(v, i, key, op, items)
  {
    hide Inv, Applied, In;
    var k :| PutAt(v, v', k, key, op);
    OneLeaf(v, key, i, k);
    AppliedOnce(v.n[i].entries, key, op, v'.n[i].entries, items);
  }

  /** A tree that is one leaf. */
  ghost function Single(es: seq<Entry<int>>, model: map<Key, int>): View<int>
  {
    View([Leaf(None, es)], 0, [Region(0, None, None)], [[]], {}, model)
  }

  /** A tree of two leaves that meet at 2. */
  ghost function Pair(left: seq<Entry<int>>, right: seq<Entry<int>>, model: map<Key, int>): View<int>
  {
    View([Leaf(Some(2), left), Leaf(Some(2), right), Internal(None, [Child(None, 0), Child(Some(2.0), 1)], [])], 2,
         [Region(0, None, Some(2.0)), Region(0, Some(2.0), None), Region(1, None, None)], [[], [], []], {}, model)
  }

  lemma SinglePut(es: seq<Entry<int>>, model: map<Key, int>, v': View<int>, key: Key, op: Op<int>, items: seq<Entry<int>>)
    requires Inv(Single(es, model)) && PutStep(Single(es, model), v', key, op) && Applied(es, key, op, items)
    ensures v' == Single(items, Put(model, key, op))
  {
    hide Inv, Applied, PutStep;
    KnownPut(Single(es, model), v', key, op, 0, items);
  }

  lemma PairPut(left: seq<Entry<int>>, right: seq<Entry<int>>, model: map<Key, int>, v': View<int>, key: Key, op: Op<int>, items: seq<Entry<int>>)
    requires Inv(Pair(left, right, model)) && PutStep(Pair(left, right, model), v', key, op) && key >= 2.0 && Applied(right, key, op, items)
    ensures v' == Pair(left, items, Put(model, key, op))
  {
    hide Inv, Applied, PutStep;
    KnownPut(Pair(left, right, model), v', key, op, 1, items);
  }

  /** Halving a leaf of two entries. */
  lemma SingleHalved(a: int, b: int, model: map<Key, int>)
    ensures LeafRoot(Single([Entry(1.0, a), Entry(2.0, b)], model))
    ensures RootHalved(Single([Entry(1.0, a), Entry(2.0, b)], model)) == Pair([Entry(1.0, a)], [Entry(2.0, b)], model)
  {
    var v := Single([Entry(1.0, a), Entry(2.0, b)], model);
    var w, x := RootHalved(v), Pair([Entry(1.0, a)], [Entry(2.0, b)], model);
    var es := v.n[0].entries;
    assert es[..1] == [Entry(1.0, a)] && es[1..] == [Entry(2.0, b)];
    assert w.n[0] == x.n[0] && w.n[1] == x.n[1] && w.n[2] == x.n[2];
    assert w.n == x.n;
    assert w.g == x.g;
    assert w.hand == x.hand;
  }

  /** With leaves of at most two entries: insert 1, 2 and 3, remove 2 and 3. Asked for the floor of 2 the tree
      then says there is none, although 1 is there. */
  method FloorMissed() returns (floor: Option<Entry<int>>, present: Option<int>)
    ensures floor == None && present == Some(10)
  {
    hide Inv, Plain, Rep, PutStep, Grew, CrowdedAt, FrozenKept, DiskTree.Valid, LeafAnswers, Floor, Stranded, Anchored;
    var t := new DiskTree<int>(1, 2, 0, 4, 3, 3);
    TwoInserts(t);
    ThirdInsert(t);
    TwoRemovals(t);
    floor := t.LookupFloor(2.0);
    present := t.Lookup(1.0);
    Missed(t.view, floor);
  }

  lemma Missed(v: View<int>, r: Option<Entry<int>>)
    requires v == Pair([Entry(1.0, 10)], [], map[1.0 := 10]) && LeafAnswers(v, 2.0, r)
    ensures r == None
  {
    var i :| 0 <= i < |v.n| && v.n[i].Leaf? && In(v.g[i], 2.0) && r == LeafFloor(v.n[i].entries, 2.0);
    assert i == 1;
  }

  lemma SingleSmall(es: seq<Entry<int>>, model: map<Key, int>, key: Key, bound: nat)
    requires |es| <= bound
    ensures SmallAt(Single(es, model), key, bound)
  {
  }

  lemma FirstItems()
    ensures Applied([], 1.0, Upsert(10), [Entry(1.0, 10)])
    ensures Applied([Entry(1.0, 10)], 2.0, Upsert(20), [Entry(1.0, 10), Entry(2.0, 20)])
  {
  }

  method TwoInserts(t: DiskTree<int>)
    requires t.Valid() && t.view == NewView() && t.maxLeaf == 3
    modifies t
    ensures t.Valid() && t.view == Single([Entry(1.0, 10), Entry(2.0, 20)], map[1.0 := 10, 2.0 := 20])
  {
    hide Inv, Plain, Rep, PutStep, Grew, CrowdedAt, FrozenKept, DiskTree.Valid, SmallAt, Applied, Anchored, FullRoot, LeafRoot;
    t.Unpack();
    SingleSmall([], map[], 1.0, 1);
    FirstItems();
    var a, b, c, d, e, f := t.InsertAt(1.0, 10, 1);
    SinglePut([], map[], t.view, 1.0, Upsert(10), [Entry(1.0, 10)]);
    t.Unpack();
    SingleSmall([Entry(1.0, 10)], map[1.0 := 10], 2.0, 1);
    a, b, c, d, e, f := t.InsertAt(2.0, 20, 1);
    SinglePut([Entry(1.0, 10)], map[1.0 := 10], t.view, 2.0, Upsert(20), [Entry(1.0, 10), Entry(2.0, 20)]);
  }

  method ThirdInsert(t: DiskTree<int>)
    requires t.Valid() && t.view == Single([Entry(1.0, 10), Entry(2.0, 20)], map[1.0 := 10, 2.0 := 20]) && t.maxLeaf == 3
    modifies t
    ensures t.Valid() && t.view == Pair([Entry(1.0, 10)], [Entry(2.0, 20), Entry(3.0, 30)], map[1.0 := 10, 2.0 := 20, 3.0 := 30])
  {
    hide Inv, Plain, Rep, PutStep, Grew, CrowdedAt, FrozenKept, DiskTree.Valid;
    t.Unpack();
    ghost var v := t.view;
    SingleHalved(10, 20, v.model);
    var a, b, c, d, e, f := t.InsertAt(3.0, 30, 2);
    HalvedInv(v);
    PairPut([Entry(1.0, 10)], [Entry(2.0, 20)], v.model, t.view, 3.0, Upsert(30), [Entry(2.0, 20), Entry(3.0, 30)]);
  }

  lemma HalvedInv(v: View<int>)
    requires Inv(v) && Plain(v) && LeafRoot(v)
    ensures Inv(RootHalved(v))
  {
    hide Inv, Plain;
    InvStruct(v);
    RootParent(v.n, v.g, v.root);
    var es := v.n[v.root].entries;
    RootViewOk(v, es[|es| / 2].key, |es| / 2);
  }

  lemma LastItems()
    ensures Applied([Entry(2.0, 20), Entry(3.0, 30)], 2.0, Op.Delete, [Entry(3.0, 30)])
    ensures Applied([Entry(3.0, 30)], 3.0, Op.Delete, [])
  {
    assert [Entry(2.0, 20), Entry(3.0, 30)][1] == Entry(3.0, 30);
  }

  method TwoRemovals(t: DiskTree<int>)
    requires t.Valid() && t.view == Pair([Entry(1.0, 10)], [Entry(2.0, 20), Entry(3.0, 30)], map[1.0 := 10, 2.0 := 20, 3.0 := 30])
    modifies t
    ensures t.Valid() && t.view == Pair([Entry(1.0, 10)], [], map[1.0 := 10])
  {
    hide Inv, Plain, Rep, PutStep, Grew, FrozenKept, DiskTree.Valid, Applied;
    t.Unpack();
    LastItems();
    var found := t.Remove(2.0);
    PairPut([Entry(1.0, 10)], [Entry(2.0, 20), Entry(3.0, 30)], map[1.0 := 10, 2.0 := 20, 3.0 := 30], t.view, 2.0, Op.Delete, [Entry(3.0, 30)]);
    t.Unpack();
    assert t.view.model == map[1.0 := 10, 3.0 := 30];
    found := t.Remove(3.0);
    PairPut([Entry(1.0, 10)], [Entry(3.0, 30)], map[1.0 := 10, 3.0 := 30], t.view, 3.0, Op.Delete, []);
    assert t.view.model == map[1.0 := 10];
  }
}
