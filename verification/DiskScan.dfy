/** Ordered reads of the on-disk B+ tree: what a walk over all leaves collects, and when
    the entry before a key is found in the key's own leaf. */
module DiskScan {
  import opened Options
  import opened BeTreeModel
  import opened BeTreeMessages
  import opened BeTreeContent
  import opened BeTreeSplit
  import opened BeTreeState
  import opened BeTreeCut
  import opened BT = BeTree
  import opened DiskModel

  // ---------------------------------------------------------------------
  // All entries in order
  // ---------------------------------------------------------------------

  /** The entries are, in order, exactly what the map holds for the keys of a region. */
  ghost predicate Lists<V>(es: seq<Entry<V>>, lo: Option<Key>, hi: Option<Key>, model: map<Key, V>)
  {
    && Sorted(es) && (forall e :: e in es ==> In(Region(0, lo, hi), e.key))
    && forall k :: In(Region(0, lo, hi), k) ==> Holds(es, k, Get(model, k))
  }

  lemma ListsJoin<V>(a: seq<Entry<V>>, b: seq<Entry<V>>, lo: Option<Key>, mid: Key, hi: Option<Key>, model: map<Key, V>)
    requires Lists(a, lo, Some(mid), model) && Lists(b, Some(mid), hi, model)
    requires (lo.Some? ==> lo.value <= mid) && (hi.Some? ==> mid <= hi.value)
    ensures Lists(a + b, lo, hi, model)
  {
    var c := a + b;
    forall x, y | 0 <= x < y < |c| ensures c[x].key < c[y].key {
      if x < |a| <= y { assert a[x] in a && b[y - |a|] in b; }
    }
    forall k | In(Region(0, lo, hi), k) ensures Holds(c, k, Get(model, k)) {
      if k < mid {
        assert In(Region(0, lo, Some(mid)), k);
        assert Holds(a, k, Get(model, k));
      } else {
        assert In(Region(0, Some(mid), hi), k);
        assert Holds(b, k, Get(model, k));
      }
    }
  }

  /** A leaf lists its region. */
  lemma LeafLists<V>(v: View<V>, i: nat)
    requires Inv(v) && Plain(v) && i < |v.n| == |v.g| && v.n[i].Leaf?
    ensures Lists(v.n[i].entries, v.g[i].lo, v.g[i].hi, v.model)
  {
    hide MsgInv, StructOk, Holds;
    var es := v.n[i].entries;
    assert LeafOk(v.g[i], es);
    forall k | In(Region(0, v.g[i].lo, v.g[i].hi), k) ensures Holds(es, k, Get(v.model, k)) {
      assert In(v.g[i], k);
      assert Settled(es, v.bag, v.model, k);
    }
  }

  lemma {:induction false} ListsOnce<V>(es: seq<Entry<V>>, model: map<Key, V>)
    requires Lists(es, None, None, model)
    ensures forall e :: e in es ==> e.key in model && model[e.key] == e.value
    ensures forall k :: k in model ==> Entry(k, model[k]) in es
  {
    forall e | e in es ensures e.key in model && model[e.key] == e.value {
      assert In(Region(0, None, None), e.key);
      HoldsOnce(es, e.key, Some(e.value), Get(model, e.key));
    }
    forall k | k in model ensures Entry(k, model[k]) in es {
      assert In(Region(0, None, None), k);
    }
  }

  /** Neighbouring children meet at a bound. */
  lemma KidsMeet<V>(v: View<V>, i: nat, j: nat)
    requires Inv(v) && i < |v.n| == |v.g| && v.n[i].Internal? && j < |v.n[i].children|
    ensures var cs := v.n[i].children;
      && cs[j].id < |v.n| && v.g[cs[j].id].level + 1 == v.g[i].level
      && (j == 0 ==> v.g[cs[j].id].lo == v.g[i].lo)
      && (j + 1 == |cs| ==> v.g[cs[j].id].hi == v.g[i].hi)
      && (j > 0 ==> cs[j - 1].id < |v.n| && v.g[cs[j].id].lo.Some? && v.g[cs[j - 1].id].hi == v.g[cs[j].id].lo)
      && NonEmpty(v.g[cs[j].id]) && Within(v.g[cs[j].id], v.g[i])
  {
    hide MsgInv, ContentInv;
    var cs := v.n[i].children;
    assert Kids(v.n[i]) == cs;
    assert ChildOk(v.n, v.g, i, j);
    assert NodeOk(v.n, v.g, v.root, i) && NodeOk(v.n, v.g, v.root, cs[j].id);
    if j > 0 { assert ChildOk(v.n, v.g, i, j - 1); }
  }

  // ---------------------------------------------------------------------
  // The greatest key at or below a key
  // ---------------------------------------------------------------------

  /** The greatest entry at or below a key, if there is one. */
  ghost predicate Floor<V>(model: map<Key, V>, key: Key, r: Option<Entry<V>>)
  {
    match r
    case None => forall k :: k in model ==> key < k
    case Some(e) => e.key <= key && e.key in model && model[e.key] == e.value && forall k :: k in model && k <= key ==> k <= e.key
  }

  /** A key of the region that the map holds is in the leaf. */
  lemma InLeaf<V>(v: View<V>, i: nat, k: Key)
    requires Inv(v) && Plain(v) && i < |v.n| == |v.g| && v.n[i].Leaf? && In(v.g[i], k) && k in v.model
    ensures Entry(k, v.model[k]) in v.n[i].entries
  {
    hide MsgInv, StructOk;
    assert Settled(v.n[i].entries, v.bag, v.model, k);
  }

  lemma LeafEntry<V>(v: View<V>, i: nat, x: nat)
    requires Inv(v) && Plain(v) && i < |v.n| == |v.g| && v.n[i].Leaf? && x < |v.n[i].entries|
    ensures var e := v.n[i].entries[x]; In(v.g[i], e.key) && e.key in v.model && v.model[e.key] == e.value
  {
    hide MsgInv, StructOk;
    var e := v.n[i].entries[x];
    assert e in v.n[i].entries && LeafOk(v.g[i], v.n[i].entries);
    assert Settled(v.n[i].entries, v.bag, v.model, e.key);
    HoldsOnce(v.n[i].entries, e.key, Some(e.value), Get(v.model, e.key));
  }

  /** An entry of the key's own leaf at or below the key, with none in between, is the floor. */
  lemma FloorFound<V>(v: View<V>, i: nat, key: Key, x: nat)
    requires Inv(v) && Plain(v) && i < |v.n| == |v.g| && v.n[i].Leaf? && In(v.g[i], key) && x < |v.n[i].entries| && v.n[i].entries[x].key <= key
    requires forall y :: x < y < |v.n[i].entries| ==> key < v.n[i].entries[y].key
    ensures Floor(v.model, key, Some(v.n[i].entries[x]))
  {
    hide Inv, Plain;
    var e := v.n[i].entries[x];
    LeafEntry(v, i, x);
    LeafSorted(v, i);
    forall k | k in v.model && k <= key ensures k <= e.key {
      if e.key < k {
        InLeaf(v, i, k);
        var y :| 0 <= y < |v.n[i].entries| && v.n[i].entries[y] == Entry(k, v.model[k]);
        assert false;
      }
    }
  }

  /** What the key's own leaf says about the floor. */
  function LeafFloor<V>(es: seq<Entry<V>>, key: Key): (r: Option<Entry<V>>)
    ensures r.Some? ==> r.value in es && r.value.key <= key
    ensures r.None? <==> forall e :: e in es ==> key < e.key
  {
    if es == [] then None
    else if es[|es| - 1].key <= key then Some(es[|es| - 1])
    else LeafFloor(es[..|es| - 1], key)
  }

  lemma {:induction false} LeafFloorAt<V>(es: seq<Entry<V>>, key: Key, x: nat)
    requires x < |es| && es[x].key <= key && forall y :: x < y < |es| ==> key < es[y].key
    ensures LeafFloor(es, key) == Some(es[x])
    decreases |es|
  {
    if x < |es| - 1 { LeafFloorAt(es[..|es| - 1], key, x); }
  }

  /** Some key of the map lies below the region. */
  ghost predicate KeyBelow<V>(model: map<Key, V>, r: Region)
  {
    r.lo.Some? && exists k :: k in model && k < r.lo.value
  }

  /** The answer is that of the key's own leaf. */
  ghost predicate LeafAnswers<V>(v: View<V>, key: Key, r: Option<Entry<V>>)
  {
    |v.n| == |v.g| && exists i :: 0 <= i < |v.n| && v.n[i].Leaf? && In(v.g[i], key) && r == LeafFloor(v.n[i].entries, key)
  }

  /** The key's own leaf has only greater entries, while some key of the map lies below its region. */
  ghost predicate Stranded<V>(v: View<V>, key: Key)
  {
    |v.n| == |v.g| && exists i :: 0 <= i < |v.n| && v.n[i].Leaf? && In(v.g[i], key) && StrandedAt(v.n[i].entries, v.g[i], v.model, key)
  }

  ghost predicate StrandedAt<V>(es: seq<Entry<V>>, r: Region, model: map<Key, V>, key: Key)
  {
    (forall e :: e in es ==> key < e.key) && KeyBelow(model, r)
  }

  /** The leaf's answer is the floor unless the leaf is stranded there, and never if it is. */
  lemma FloorExact<V>(v: View<V>, i: nat, key: Key)
    requires Inv(v) && Plain(v) && i < |v.n| == |v.g| && v.n[i].Leaf? && In(v.g[i], key)
    ensures Floor(v.model, key, LeafFloor(v.n[i].entries, key)) <==> !StrandedAt(v.n[i].entries, v.g[i], v.model, key)
  {
    hide Inv, Plain;
    var es := v.n[i].entries;
    LeafSorted(v, i);
    match LeafFloor(es, key) {
      case Some(e) =>
        var x :| 0 <= x < |es| && es[x] == e;
        var last := LastAtMost(es, key, x);
        LeafFloorAt(es, key, last);
        FloorFound(v, i, key, last);
      case None =>
        forall k | k in v.model && k <= key ensures v.g[i].lo.Some? && k < v.g[i].lo.value {
          if In(v.g[i], k) {
            InLeaf(v, i, k);
            assert false;
          }
        }
    }
  }

  lemma LastAtMost<V>(es: seq<Entry<V>>, key: Key, x: nat) returns (last: nat)
    requires x < |es| && es[x].key <= key && Sorted(es)
    ensures last < |es| && es[last].key <= key && forall y :: last < y < |es| ==> key < es[y].key
  {
    last := x;
    while last + 1 < |es| && es[last + 1].key <= key
      invariant last < |es| && es[last].key <= key
    {
      last := last + 1;
    }
  }
}
