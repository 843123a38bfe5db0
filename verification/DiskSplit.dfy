/** Splitting stored nodes: the abstract tree after a split, and how the blocks written
    so far stand for it while the parent has not been updated yet. */
module DiskSplit {
  import opened Options
  import opened BeTreeModel
  import opened BeTreeMessages
  import opened BeTreeContent
  import opened BeTreeSplit
  import opened BeTreeState
  import opened BeTreeCut
  import opened DiskModel

  // ---------------------------------------------------------------------
  // The abstract tree after a split
  // ---------------------------------------------------------------------

  ghost function LeftHalf<V>(x: Node<V>, b: Key, mid: nat, above: nat): Node<V>
    requires BoundAt(x, mid, b)
  {
    match x
    case Internal(_, cs, buf) => Internal(Some(above), cs[..mid], Below(buf, b))
    case Leaf(_, es) => Leaf(Some(above), es[..mid])
  }

  ghost function RightHalf<V>(x: Node<V>, b: Key, mid: nat, above: nat): Node<V>
    requires BoundAt(x, mid, b)
  {
    match x
    case Internal(_, cs, buf) => Internal(Some(above), cs[mid..], AtLeast(buf, b))
    case Leaf(_, es) => Leaf(Some(above), es[mid..])
  }

  ghost function CutNode<V>(n: Arena<V>, id: nat, b: Key, mid: nat, above: nat, k: nat): Node<V>
    requires id < |n| && BoundAt(n[id], mid, b) && k <= |n|
  {
    if k == id then LeftHalf(n[id], b, mid, above)
    else if k == |n| then RightHalf(n[id], b, mid, above)
    else if InRight(Kids(n[id]), mid, k) then WithParent(n[k], Some(|n|))
    else n[k]
  }

  ghost function CutArena<V>(n: Arena<V>, id: nat, b: Key, mid: nat, above: nat): (r: Arena<V>)
    requires id < |n| && BoundAt(n[id], mid, b)
    ensures |r| == |n| + 1 && forall k :: 0 <= k <= |n| ==> r[k] == CutNode(n, id, b, mid, above, k)
  {
    seq(|n| + 1, k requires 0 <= k <= |n| => CutNode(n, id, b, mid, above, k))
  }

  function Linked(cs: seq<Child>, j: nat, b: Key, r: nat): seq<Child>
    requires j < |cs|
  {
    cs[..j + 1] + [Child(Some(b), r)] + cs[j + 1..]
  }

  /** Node id divided below its parent p. */
  ghost function UnderView<V>(v: View<V>, id: nat, b: Key, mid: nat, p: nat, j: nat): View<V>
    requires id < |v.n| == |v.g| && BoundAt(v.n[id], mid, b) && p < |v.n| && v.n[p].Internal? && j < |v.n[p].children|
  {
    View(CutArena(v.n, id, b, mid, p)[p := Internal(v.n[p].parent, Linked(v.n[p].children, j, b, |v.n|), v.n[p].buffer)],
         v.root, CutRegions(v.g, id, b), v.hand + [[]], v.bag, v.model)
  }

  /** The root divided, with a new root above. */
  ghost function RootView<V>(v: View<V>, b: Key, mid: nat): View<V>
    requires v.root < |v.n| == |v.g| && BoundAt(v.n[v.root], mid, b)
  {
    View(CutArena(v.n, v.root, b, mid, |v.n| + 1) + [Internal(None, [Child(None, v.root), Child(Some(b), |v.n|)], [])],
         |v.n| + 1, CutRegions(v.g, v.root, b) + [Region(v.g[v.root].level + 1, None, None)], v.hand + [[], []], v.bag, v.model)
  }

  lemma UnderViewOk<V>(v: View<V>, id: nat, b: Key, mid: nat, p: nat, j: nat)
    requires id < |v.n| == |v.g| && BoundAt(v.n[id], mid, b) && p < |v.n| && p != id && v.n[p].Internal? && j < |v.n[p].children|
    requires v.n[id].parent == Some(p) && v.n[p].children[j].id == id && Plain(v)
    requires Inv(v)
    ensures Inv(UnderView(v, id, b, mid, p, j)) && Plain(UnderView(v, id, b, mid, p, j))
  {
    hide Inv, CutUnder, CutArena, SplitStep, RegionsCut;
    var v' := UnderView(v, id, b, mid, p, j);
    InvSizes(v);
    UnderIsCut(v, id, b, mid, p, j);
    CutUnderIsSplit(v, v', id, b, mid, p, j);
    SplitKeeps(v, v', id, b, KidMid(v.n[id], mid));
    PlainCut(v.n, id, b, mid, p);
  }

  lemma UnderIsCut<V>(v: View<V>, id: nat, b: Key, mid: nat, p: nat, j: nat)
    requires id < |v.n| == |v.g| && BoundAt(v.n[id], mid, b) && p < |v.n| && p != id && v.n[p].Internal? && j < |v.n[p].children|
    requires v.n[p].children[j].id == id
    ensures CutUnder(v.n, id, b, mid, p, j, UnderView(v, id, b, mid, p, j).n)
  {
    hide InRight, Below, AtLeast;
  }

  lemma RootIsCut<V>(v: View<V>, b: Key, mid: nat)
    requires v.root < |v.n| == |v.g| && BoundAt(v.n[v.root], mid, b)
    ensures CutRoot(v.n, v.root, b, mid, RootView(v, b, mid).n)
  {
    hide InRight, Below, AtLeast;
  }

  lemma RootViewOk<V>(v: View<V>, b: Key, mid: nat)
    requires v.root < |v.n| == |v.g| && BoundAt(v.n[v.root], mid, b) && v.n[v.root].parent == None && Plain(v)
    requires Inv(v)
    ensures Inv(RootView(v, b, mid)) && Plain(RootView(v, b, mid))
  {
    hide Inv, CutRoot, CutArena, SplitStep, RegionsCut;
    var v' := RootView(v, b, mid);
    InvSizes(v);
    RootIsCut(v, b, mid);
    CutRootIsSplit(v, v', v.root, b, mid);
    SplitKeeps(v, v', v.root, b, KidMid(v.n[v.root], mid));
    PlainCut(v.n, v.root, b, mid, |v.n| + 1);
  }

  lemma PlainCut<V>(n: Arena<V>, id: nat, b: Key, mid: nat, above: nat)
    requires id < |n| && BoundAt(n[id], mid, b) && forall i :: 0 <= i < |n| ==> Buffer(n[i]) == []
    ensures forall k :: 0 <= k <= |n| ==> Buffer(CutArena(n, id, b, mid, above)[k]) == []
  {
    hide InRight;
    forall k | 0 <= k <= |n| ensures Buffer(CutArena(n, id, b, mid, above)[k]) == [] {
      assert Buffer(n[id]) == [];
      assert k < |n| ==> Buffer(n[k]) == [];
    }
  }

  // ---------------------------------------------------------------------
  // The blocks after a split
  // ---------------------------------------------------------------------

  /** Body of the left half of a stored node, cut before child or entry number mid. */
  function LeftBody<V>(x: DNode<V>, mid: nat): DNode<V>
    requires if x.level == 0 then mid <= |x.items| else 1 <= mid <= |x.seps| + 1
  {
    if x.level == 0 then x.(items := x.items[..mid]) else x.(seps := x.seps[..mid - 1])
  }

  function RightBody<V>(x: DNode<V>, mid: nat): DNode<V>
    requires if x.level == 0 then mid <= |x.items| else 1 <= mid <= |x.seps|
  {
    if x.level == 0 then x.(items := x.items[mid..]) else x.(leftmost := x.seps[mid - 1].ptr, seps := x.seps[mid..])
  }

  lemma MatchesMore<V>(x: DNode<V>, a: Node<V>, level: nat, ids: seq<nat>, more: seq<nat>)
    requires Matches(x, a, level, ids)
    ensures Matches(x, a, level, ids + more)
  {
  }

  lemma MatchesLike<V>(x: DNode<V>, y: DNode<V>, a: Node<V>, a': Node<V>, level: nat, ids: seq<nat>)
    requires Matches(x, a, level, ids) && SameBody(y, x) && (a'.Leaf? <==> a.Leaf?) && Kids(a') == Kids(a) && Entries(a') == Entries(a)
    ensures Matches(y, a', level, ids)
  {
  }

  lemma HalvesMatch<V>(x: DNode<V>, a: Node<V>, level: nat, ids: seq<nat>, b: Key, mid: nat, above: nat)
    requires Matches(x, a, level, ids) && BoundAt(a, mid, b) && (a.Leaf? <==> level == 0)
    ensures if level == 0 then 0 < mid < |x.items| else 1 <= mid <= |x.seps|
    ensures Matches(LeftBody(x, mid), LeftHalf(a, b, mid, above), level, ids)
    ensures Matches(RightBody(x, mid), RightHalf(a, b, mid, above), level, ids)
  {
    hide Below, AtLeast;
    if a.Internal? {
      var cs := a.children;
      var right := RightBody(x, mid);
      assert x.seps[mid - 1] == Sep(BoundOf(cs[mid]), ids[cs[mid].id]);
      forall j | 0 <= j < |right.seps| ensures right.seps[j] == Sep(BoundOf(cs[mid..][j + 1]), ids[cs[mid..][j + 1].id]) {
        assert x.seps[mid + j] == Sep(BoundOf(cs[mid + j + 1]), ids[cs[mid + j + 1].id]);
      }
    }
  }

  /** All nodes but x are in place. */
  ghost predicate RepBut<V>(st: Store<V>, ids: seq<nat>, v: View<V>, x: nat)
  {
    && |ids| == |v.n| == |v.g| && Distinct(ids) && x < |ids| && ids[x] != 0
    && forall i :: 0 <= i < |ids| && i != x ==> NodeAt(st, ids, v, i)
  }

  /** The two halves of node id have been written; nothing else has changed. */
  ghost predicate HalvesWritten<V>(st: Store<V>, ids: seq<nat>, id: nat, mid: nat, r: nat, st': Store<V>)
    requires id < |ids|
  {
    && r != 0 && r !in ids && ids[id] in st && ids[id] in st' && r in st'
    && (var x := st[ids[id]]; if x.level == 0 then 0 < mid < |x.items| else 1 <= mid <= |x.seps|)
    && SameBody(st'[ids[id]], LeftBody(st[ids[id]], mid)) && SameBody(st'[r], RightBody(st[ids[id]], mid))
    && forall k :: 0 <= k < |ids| && k != id ==> SameAt(st, st', ids[k], ids[k])
  }

  /** After the halves are written, all of the split tree but the node above is in place. */
  lemma HalvesInPlace<V>(st: Store<V>, ids: seq<nat>, v: View<V>, id: nat, b: Key, mid: nat, above: nat, r: nat, st': Store<V>, k: nat, v': View<V>)
    requires Rep(st, ids, v) && id < |ids| && BoundAt(v.n[id], mid, b) && HalvesWritten(st, ids, id, mid, r, st')
    requires k <= |ids| && k != above && |v'.n| == |v'.g| && |v'.n| > |ids| && v'.n[k] == CutNode(v.n, id, b, mid, above, k)
    requires v'.g[k].level == v.g[if k == |ids| then id else k].level
    requires Inv(v)
    ensures (ids + [r])[k] != 0 && (ids + [r])[k] in st' && Matches(st'[(ids + [r])[k]], v'.n[k], v'.g[k].level, ids + [r])
  {
    hide Inv, InRight, Below, AtLeast;
    var o := if k == |ids| then id else k;
    assert NodeAt(st, ids, v, o);
    var x := st[ids[o]];
    assert v.n[id].Leaf? <==> v.g[id].level == 0 by { InvStruct(v); LevelZero(v, id); }
    if o == id {
      HalvesMatch(x, v.n[id], v.g[id].level, ids, b, mid, above);
      if k == id {
        MatchesLike(LeftBody(x, mid), st'[ids[id]], v'.n[k], v'.n[k], v.g[id].level, ids);
      } else {
        MatchesLike(RightBody(x, mid), st'[r], v'.n[k], v'.n[k], v.g[id].level, ids);
      }
      MatchesMore(st'[(ids + [r])[k]], v'.n[k], v.g[id].level, ids, [r]);
    } else {
      MatchesLike(x, st'[ids[k]], v.n[k], v'.n[k], v.g[k].level, ids);
      MatchesMore(st'[ids[k]], v'.n[k], v.g[k].level, ids, [r]);
    }
  }

  lemma LevelZero<V>(v: View<V>, i: nat)
    requires StructOk(v.n, v.g, v.root) && i < |v.n|
    ensures v.n[i].Leaf? <==> v.g[i].level == 0
  {
    assert NodeOk(v.n, v.g, v.root, i);
  }

  lemma DistinctSnoc(ids: seq<nat>, r: nat)
    requires Distinct(ids) && r !in ids
    ensures Distinct(ids + [r])
  {
  }

  lemma UnderPending<V>(st: Store<V>, ids: seq<nat>, v: View<V>, id: nat, b: Key, mid: nat, p: nat, j: nat, r: nat, st': Store<V>)
    requires Rep(st, ids, v) && id < |ids| && BoundAt(v.n[id], mid, b) && HalvesWritten(st, ids, id, mid, r, st')
    requires p < |ids| && p != id && v.n[p].Internal? && j < |v.n[p].children|
    requires Inv(v)
    ensures RepBut(st', ids + [r], UnderView(v, id, b, mid, p, j), p)
  {
    hide Inv, CutNode, HalvesWritten, NodeAt;
    var v', ids' := UnderView(v, id, b, mid, p, j), ids + [r];
    assert r !in ids && ids[p] != 0 by { assert HalvesWritten(st, ids, id, mid, r, st'); WrittenFacts(st, ids, id, mid, r, st'); RepNonZero(st, ids, v, p); }
    DistinctSnoc(ids, r);
    forall k | 0 <= k < |ids'| && k != p ensures NodeAt(st', ids', v', k) {
      HalvesInPlace(st, ids, v, id, b, mid, p, r, st', k, v');
      PutTogether(st', ids', v', k);
    }
  }

  lemma WrittenFacts<V>(st: Store<V>, ids: seq<nat>, id: nat, mid: nat, r: nat, st': Store<V>)
    requires id < |ids| && HalvesWritten(st, ids, id, mid, r, st')
    ensures r != 0 && r !in ids
  {
  }

  lemma RepNonZero<V>(st: Store<V>, ids: seq<nat>, v: View<V>, i: nat)
    requires Rep(st, ids, v) && i < |ids|
    ensures ids[i] != 0 && ids[i] in st
  {
    assert NodeAt(st, ids, v, i);
  }

  lemma PutTogether<V>(st: Store<V>, ids: seq<nat>, v: View<V>, i: nat)
    requires i < |ids| == |v.n| == |v.g| && ids[i] != 0 && ids[i] in st && Matches(st[ids[i]], v.n[i], v.g[i].level, ids)
    ensures NodeAt(st, ids, v, i)
  {
  }

  // ---------------------------------------------------------------------
  // The parent
  // ---------------------------------------------------------------------

  /** The stored parent with a separator added. */
  function WithSep<V>(x: DNode<V>, j: nat, b: Key, r: nat): DNode<V>
    requires j <= |x.seps|
  {
    x.(seps := x.seps[..j] + [Sep(b, r)] + x.seps[j..])
  }

  lemma LinkedMatches<V>(x: DNode<V>, cs: seq<Child>, ids: seq<nat>, j: nat, b: Key, r: nat)
    requires MatchesKids(x, cs, ids) && j < |cs|
    ensures MatchesKids(WithSep(x, j, b, r), Linked(cs, j, b, |ids|), ids + [r])
  {
    var y, ds, ids' := WithSep(x, j, b, r), Linked(cs, j, b, |ids|), ids + [r];
    forall k | 0 <= k < |ds| ensures ds[k].id < |ids'| {
      if k <= j { assert ds[k] == cs[k]; } else if k > j + 1 { assert ds[k] == cs[k - 1]; }
    }
    assert ds[0] == cs[0];
    forall k | 0 <= k < |y.seps| ensures y.seps[k] == Sep(BoundOf(ds[k + 1]), ids'[ds[k + 1].id]) {
      if k < j {
        assert y.seps[k] == x.seps[k] && ds[k + 1] == cs[k + 1];
      } else if k > j {
        assert y.seps[k] == x.seps[k - 1] && ds[k + 1] == cs[k];
      }
    }
  }

  /** Where the binary search puts the new separator: right after the divided child. */
  lemma SepPosition<V>(v: View<V>, ids: seq<nat>, id: nat, p: nat, j: nat, b: Key, x: DNode<V>, pos: nat)
    requires StructOk(v.n, v.g, v.root) && id < |v.n| && p < |v.n| && v.n[p].Internal? && j < |v.n[p].children| && v.n[p].children[j].id == id
    requires Cuts(v.g[id], b) && MatchesKids(x, v.n[p].children, ids) && pos <= |x.seps|
    requires forall y :: 0 <= y < pos ==> x.seps[y].key < b
    requires forall y :: pos <= y < |x.seps| ==> b <= x.seps[y].key
    ensures pos == j
  {
    var cs := v.n[p].children;
    assert Kids(v.n[p]) == cs;
    assert ChildOk(v.n, v.g, p, j);
    if j > 0 { assert x.seps[j - 1] == Sep(BoundOf(cs[j]), ids[cs[j].id]); }
    if j + 1 < |cs| {
      assert ChildOk(v.n, v.g, p, j + 1);
      assert x.seps[j] == Sep(BoundOf(cs[j + 1]), ids[cs[j + 1].id]);
    }
  }

  lemma UnderLinked<V>(st: Store<V>, ids: seq<nat>, v: View<V>, id: nat, b: Key, mid: nat, p: nat, j: nat, r: nat, st': Store<V>, st2: Store<V>)
    requires Rep(st, ids, v) && id < |ids| && BoundAt(v.n[id], mid, b) && p < |ids| && p != id && v.n[p].Internal? && j < |v.n[p].children|
    requires RepBut(st', ids + [r], UnderView(v, id, b, mid, p, j), p)
    requires ids[p] in st && j <= |st[ids[p]].seps| && st2.Keys >= st'.Keys && ids[p] in st2
    requires SameBody(st2[ids[p]], WithSep(st[ids[p]], j, b, r)) && forall c :: c in st' && c != ids[p] ==> st2[c] == st'[c]
    ensures Rep(st2, ids + [r], UnderView(v, id, b, mid, p, j))
  {
    hide CutNode;
    var v', ids' := UnderView(v, id, b, mid, p, j), ids + [r];
    assert NodeAt(st, ids, v, p);
    LinkedMatches(st[ids[p]], v.n[p].children, ids, j, b, r);
    forall i | 0 <= i < |ids'| ensures NodeAt(st2, ids', v', i) {
      if i != p { assert NodeAt(st', ids', v', i); }
    }
  }

  // ---------------------------------------------------------------------
  // The root
  // ---------------------------------------------------------------------

  /** The old root's halves are in place; the new root is still to come. */
  ghost predicate RootPending<V>(st: Store<V>, ids: seq<nat>, v: View<V>)
  {
    && |ids| + 1 == |v.n| == |v.g| && Distinct(ids)
    && forall k :: 0 <= k < |ids| ==> HalfAt(st, ids, v, k)
  }

  ghost predicate HalfAt<V>(st: Store<V>, ids: seq<nat>, v: View<V>, k: nat)
    requires k < |ids| && |ids| + 1 == |v.n| == |v.g|
  {
    ids[k] != 0 && ids[k] in st && Matches(st[ids[k]], v.n[k], v.g[k].level, ids)
  }

  lemma RootHalves<V>(st: Store<V>, ids: seq<nat>, v: View<V>, b: Key, mid: nat, r: nat, st': Store<V>)
    requires Rep(st, ids, v) && v.root < |ids| && BoundAt(v.n[v.root], mid, b) && HalvesWritten(st, ids, v.root, mid, r, st')
    requires Inv(v)
    ensures RootPending(st', ids + [r], RootView(v, b, mid))
  {
    hide Inv, CutNode, HalvesWritten;
    var v', ids' := RootView(v, b, mid), ids + [r];
    WrittenFacts(st, ids, v.root, mid, r, st');
    DistinctSnoc(ids, r);
    forall k | 0 <= k < |ids'| ensures HalfAt(st', ids', v', k) {
      HalvesInPlace(st, ids, v, v.root, b, mid, |v.n| + 1, r, st', k, v');
    }
  }

  /** Moving the left half to a new block and writing the new root in its place completes the tree. */
  lemma RootGrown<V>(st: Store<V>, ids: seq<nat>, v: View<V>, left: nat, b: Key, moved: nat, st': Store<V>)
    requires RootPending(st, ids, v) && left < |ids| && moved != 0 && moved !in ids && SameAt(st, st', ids[left], moved)
    requires v.root == |ids| && v.n[v.root] == Internal(None, [Child(None, left), Child(Some(b), |ids| - 1)], []) && left < |ids| - 1
    requires ids[left] in st' && st'[ids[left]].level == v.g[v.root].level && st'[ids[left]].leftmost == moved && st'[ids[left]].seps == [Sep(b, ids[|ids| - 1])]
    requires forall k :: 0 <= k < |ids| && k != left ==> SameAt(st, st', ids[k], ids[k])
    requires Inv(v)
    ensures Rep(st', ids[left := moved] + [ids[left]], v)
  {
    hide MsgInv, ContentInv, Plain;
    var ids' := ids[left := moved] + [ids[left]];
    assert Distinct(ids') by { DistinctMoved(ids, left, moved); assert ids[left] !in ids[left := moved]; DistinctSnoc(ids[left := moved], ids[left]); }
    forall k | 0 <= k < |ids'| ensures NodeAt(st', ids', v, k) {
      if k < |ids| {
        assert HalfAt(st, ids, v, k);
        assert NodeOk(v.n, v.g, v.root, left);
        LeftsParent(v, left);
        OnlyParent(v, left, k);
        MatchesMoved(st[ids[k]], v.n[k], v.g[k].level, ids, left, moved);
        MatchesMore(st[ids[k]], v.n[k], v.g[k].level, ids[left := moved], [ids[left]]);
        MatchesLike(st[ids[k]], st'[ids'[k]], v.n[k], v.n[k], v.g[k].level, ids');
      } else {
        assert HalfAt(st, ids, v, left) && NodeOk(v.n, v.g, v.root, v.root);
        assert ids'[|ids| - 1] == ids[|ids| - 1];
      }
    }
  }

  lemma LeftsParent<V>(v: View<V>, left: nat)
    requires StructOk(v.n, v.g, v.root) && v.n[v.root].Internal? && |v.n[v.root].children| > 0 && v.n[v.root].children[0].id == left
    ensures left < |v.n| && v.n[left].parent == Some(v.root)
  {
    assert Kids(v.n[v.root]) == v.n[v.root].children;
    assert ChildOk(v.n, v.g, v.root, 0);
  }
}
