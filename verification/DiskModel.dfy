/** The on-disk B+ tree as a store of nodes by block number, and how it stands for an
    abstract tree: the arena of the model with one block per node. */
module DiskModel {
  import opened Options
  import opened BeTreeModel
  import opened BeTreeMessages
  import opened BeTreeContent
  import opened BeTreeSplit
  import opened BeTreeState
  import opened BeTreeCut

  /** A separator: keys from `key` on are found under `ptr`. */
  datatype Sep = Sep(key: Key, ptr: nat)

  /** A node as stored. Leaves (level 0) use items; inner nodes use leftmost and seps. */
  datatype DNode<+V> = DNode(level: nat, leftmost: nat, seps: seq<Sep>, items: seq<Entry<V>>, gen: nat, parent: nat, next: nat, prev: nat)

  type Store<V> = map<nat, DNode<V>>

  /** The same level and content; other header fields are ignored by navigation. */
  ghost predicate SameBody<V>(x: DNode<V>, y: DNode<V>)
  {
    x.level == y.level && if x.level == 0 then x.items == y.items else x.leftmost == y.leftmost && x.seps == y.seps
  }

  function BoundOf(c: Child): Key
  {
    if c.bound.Some? then c.bound.value else 0.0
  }

  /** Block x holds arena node a, given the blocks of all nodes. */
  ghost predicate Matches<V>(x: DNode<V>, a: Node<V>, level: nat, ids: seq<nat>)
  {
    && x.level == level
    && match a
       case Leaf(_, es) => level == 0 && x.items == es
       case Internal(_, cs, _) => level > 0 && MatchesKids(x, cs, ids)
  }

  ghost predicate MatchesKids<V>(x: DNode<V>, cs: seq<Child>, ids: seq<nat>)
  {
    && |cs| == |x.seps| + 1 && (forall j :: 0 <= j < |cs| ==> cs[j].id < |ids|)
    && x.leftmost == ids[cs[0].id]
    && forall j :: 0 <= j < |x.seps| ==> x.seps[j] == Sep(BoundOf(cs[j + 1]), ids[cs[j + 1].id])
  }

  ghost predicate NodeAt<V>(st: Store<V>, ids: seq<nat>, v: View<V>, i: nat)
    requires i < |ids| == |v.n| == |v.g|
  {
    ids[i] != 0 && ids[i] in st && Matches(st[ids[i]], v.n[i], v.g[i].level, ids)
  }

  ghost predicate Distinct(ids: seq<nat>)
  {
    forall i, j :: 0 <= i < j < |ids| ==> ids[i] != ids[j]
  }

  /** The store holds the abstract tree v, node i in block ids[i]. */
  ghost predicate Rep<V>(st: Store<V>, ids: seq<nat>, v: View<V>)
  {
    && |ids| == |v.n| == |v.g| && Distinct(ids)
    && forall i :: 0 <= i < |ids| ==> NodeAt(st, ids, v, i)
  }

  /** Nothing buffered: the tree is its leaves. */
  ghost predicate Plain<V>(v: View<V>)
  {
    && v.bag == {} && (forall i :: 0 <= i < |v.hand| ==> v.hand[i] == [])
    && forall i :: 0 <= i < |v.n| ==> Buffer(v.n[i]) == []
  }

  // ---------------------------------------------------------------------
  // Routing
  // ---------------------------------------------------------------------

  /** The child for a key as the stored node gives it. */
  function RouteSeps(x: int, leftmost: nat, seps: seq<Sep>, key: Key): nat
    requires 0 <= x <= |seps|
    decreases |seps| - x
  {
    if x < |seps| && key >= seps[x].key then RouteSeps(x + 1, seps[x].ptr, seps, key) else leftmost
  }

  lemma {:induction false} RouteAgrees<V>(x: DNode<V>, cs: seq<Child>, ids: seq<nat>, key: Key, j: nat)
    requires MatchesKids(x, cs, ids) && j < |cs| && forall y :: 1 <= y < |cs| ==> cs[y].bound.Some?
    ensures RouteSeps(j, ids[cs[j].id], x.seps, key) == ids[cs[RouteFrom(cs, key, j)].id]
    decreases |cs| - j
  {
    if j < |x.seps| {
      assert x.seps[j] == Sep(BoundOf(cs[j + 1]), ids[cs[j + 1].id]);
      if key >= x.seps[j].key { RouteAgrees(x, cs, ids, key, j + 1); }
    }
  }

  /** Routing in the store reaches the block of the child responsible for the key. */
  lemma RouteFinds<V>(st: Store<V>, ids: seq<nat>, v: View<V>, i: nat, key: Key) returns (c: nat)
    requires Inv(v) && Rep(st, ids, v) && i < |v.n| && v.n[i].Internal? && In(v.g[i], key)
    ensures c < |v.n| && v.n[c].parent == Some(i) && v.g[c].level + 1 == v.g[i].level && In(v.g[c], key)
    ensures ids[i] in st && RouteSeps(0, st[ids[i]].leftmost, st[ids[i]].seps, key) == ids[c]
    ensures |v.n[i].children| == |st[ids[i]].seps| + 1
    ensures v.g[c].hi.None? <==> v.g[i].hi.None? && (|st[ids[i]].seps| == 0 || key >= st[ids[i]].seps[|st[ids[i]].seps| - 1].key)
  {
    hide MsgInv, ContentInv;
    var cs := v.n[i].children;
    assert NodeAt(st, ids, v, i);
    assert Kids(v.n[i]) == cs;
    RouteCovers(v.n, v.g, v.root, i, key);
    var j := RouteFrom(cs, key, 0);
    c := cs[j].id;
    forall y | 1 <= y < |cs| ensures cs[y].bound.Some? { assert ChildOk(v.n, v.g, i, y); }
    RouteAgrees(st[ids[i]], cs, ids, key, 0);
    LastChild(v, i, j, key, st[ids[i]], ids);
  }

  lemma LastChild<V>(v: View<V>, i: nat, j: nat, key: Key, x: DNode<V>, ids: seq<nat>)
    requires StructOk(v.n, v.g, v.root) && i < |v.n| && v.n[i].Internal? && MatchesKids(x, v.n[i].children, ids)
    requires j < |v.n[i].children| && j == RouteFrom(v.n[i].children, key, 0) && In(v.g[i], key)
    ensures v.n[i].children[j].id < |v.g|
    ensures v.g[v.n[i].children[j].id].hi.None? <==> v.g[i].hi.None? && (|x.seps| == 0 || key >= x.seps[|x.seps| - 1].key)
  {
    var cs := v.n[i].children;
    assert Kids(v.n[i]) == cs;
    assert ChildOk(v.n, v.g, i, j);
    var last := |cs| - 1;
    if last > 0 {
      assert x.seps[last - 1] == Sep(BoundOf(cs[last]), ids[cs[last].id]);
      assert ChildOk(v.n, v.g, i, last);
      if j < last {
        assert ChildOk(v.n, v.g, i, j + 1);
        if j + 1 < last { BoundsIncrease(v.n, v.g, v.root, i, j + 1, last); }
      }
    }
  }

  // ---------------------------------------------------------------------
  // Moving a node to another block
  // ---------------------------------------------------------------------

  function ReplacePtr(seps: seq<Sep>, old_: nat, new_: nat): (r: seq<Sep>)
    ensures |r| == |seps| && forall j :: 0 <= j < |seps| ==> r[j] == Sep(seps[j].key, if seps[j].ptr == old_ then new_ else seps[j].ptr)
  {
    if seps == [] then []
    else [Sep(seps[0].key, if seps[0].ptr == old_ then new_ else seps[0].ptr)] + ReplacePtr(seps[1..], old_, new_)
  }

  function ReplaceChild<V>(x: DNode<V>, old_: nat, new_: nat): DNode<V>
  {
    if x.level == 0 then x
    else x.(leftmost := if x.leftmost == old_ then new_ else x.leftmost, seps := ReplacePtr(x.seps, old_, new_))
  }

  lemma DistinctMoved(ids: seq<nat>, i: nat, c: nat)
    requires Distinct(ids) && i < |ids| && c !in ids
    ensures Distinct(ids[i := c])
  {
  }

  /** A node that has no child i matches as before when i moves. */
  lemma MatchesMoved<V>(x: DNode<V>, a: Node<V>, level: nat, ids: seq<nat>, i: nat, c: nat)
    requires i < |ids| && Matches(x, a, level, ids) && forall j :: 0 <= j < |Kids(a)| ==> Kids(a)[j].id != i
    ensures Matches(x, a, level, ids[i := c])
  {
    if a.Internal? {
      forall j | 0 <= j < |a.children| ensures a.children[j].id != i { assert Kids(a)[j] == a.children[j]; }
    }
  }

  lemma ParentMoved<V>(x: DNode<V>, a: Node<V>, level: nat, ids: seq<nat>, i: nat, c: nat)
    requires Distinct(ids) && i < |ids| && level > 0 && Matches(x, a, level, ids) && a.Internal?
    ensures Matches(ReplaceChild(x, ids[i], c), a, level, ids[i := c])
  {
    var cs := a.children;
    var y := ReplaceChild(x, ids[i], c);
    assert cs[0].id == i <==> x.leftmost == ids[i];
    forall j | 0 <= j < |y.seps| ensures y.seps[j] == Sep(BoundOf(cs[j + 1]), ids[i := c][cs[j + 1].id]) {
      assert x.seps[j] == Sep(BoundOf(cs[j + 1]), ids[cs[j + 1].id]);
    }
  }

  lemma OnlyParent<V>(v: View<V>, i: nat, k: nat)
    requires StructOk(v.n, v.g, v.root) && i < |v.n| && k < |v.n| && v.n[i].parent != Some(k)
    ensures forall j :: 0 <= j < |Kids(v.n[k])| ==> Kids(v.n[k])[j].id != i
  {
    forall j | 0 <= j < |Kids(v.n[k])| ensures Kids(v.n[k])[j].id != i { assert ChildOk(v.n, v.g, k, j); }
  }

  /** Block b' of st' has the body of block b of st. */
  ghost predicate SameAt<V>(st: Store<V>, st': Store<V>, b: nat, b': nat)
  {
    b in st && b' in st' && SameBody(st'[b'], st[b])
  }

  /** Node i was copied to block c, and its parent points there. */
  ghost predicate Moved<V>(st: Store<V>, ids: seq<nat>, v: View<V>, i: nat, c: nat, st': Store<V>)
    requires i < |ids| == |v.n|
  {
    && c != 0 && c !in ids && SameAt(st, st', ids[i], c)
    && forall k :: 0 <= k < |ids| && k != i ==>
         if v.n[i].parent == Some(k)
         then ids[k] in st && ids[k] in st' && SameBody(st'[ids[k]], ReplaceChild(st[ids[k]], ids[i], c))
         else SameAt(st, st', ids[k], ids[k])
  }

  lemma RepMoved<V>(st: Store<V>, ids: seq<nat>, v: View<V>, i: nat, c: nat, st': Store<V>)
    requires Rep(st, ids, v) && i < |ids| && Moved(st, ids, v, i, c, st')
    requires Inv(v)
    ensures Rep(st', ids[i := c], v)
  {
    hide MsgInv, ContentInv;
    var ids' := ids[i := c];
    DistinctMoved(ids, i, c);
    forall k | 0 <= k < |ids'| ensures NodeAt(st', ids', v, k) {
      assert NodeAt(st, ids, v, k);
      assert NodeOk(v.n, v.g, v.root, i) && NodeOk(v.n, v.g, v.root, k);
      if v.n[i].parent == Some(k) {
        ParentMoved(st[ids[k]], v.n[k], v.g[k].level, ids, i, c);
      } else {
        OnlyParent(v, i, k);
        MatchesMoved(st[ids[k]], v.n[k], v.g[k].level, ids, i, c);
      }
    }
  }
}
