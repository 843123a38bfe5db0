/** Stamps, snapshots and structural epochs of the on-disk B+ tree: what stays readable behind
    a barrier, where nodes have been since an epoch began, and paths from the root. */
module DiskHistory {
  import opened Options
  import opened BeTreeModel
  import opened BeTreeMessages
  import opened BeTreeContent
  import opened BeTreeSplit
  import opened BeTreeState
  import opened BeTreeSteps
  import opened BeTreeCut
  import opened BT = BeTree
  import opened DiskModel
  import opened DiskSplit

  // ---------------------------------------------------------------------
  // Stamps and snapshots
  // ---------------------------------------------------------------------

  /** Nodes stamped at or below the barrier are the same in both stores. */
  ghost predicate FrozenKept<V>(st: Store<V>, st': Store<V>, barrier: nat)
  {
    && (forall b :: b in st && st[b].gen <= barrier ==> b in st' && st'[b] == st[b])
    && (forall b :: b in st' && st'[b].gen <= barrier ==> b in st && st'[b] == st[b])
  }

  lemma KeptTrans<V>(a: Store<V>, b: Store<V>, c: Store<V>, barrier: nat)
    requires FrozenKept(a, b, barrier) && FrozenKept(b, c, barrier)
    ensures FrozenKept(a, c, barrier)
  {
  }

  lemma KeptWrite<V>(st: Store<V>, b: nat, x: DNode<V>, barrier: nat)
    requires x.gen > barrier && (b in st ==> st[b].gen > barrier)
    ensures FrozenKept(st, st[b := x], barrier)
  {
  }

  /** What holds of every stored node: its block, and the one to its left, are allocated, and its stamp is not from the future. */
  ghost predicate HeadersOk<V>(st: Store<V>, gen: nat, nextBlock: nat)
  {
    forall b :: b in st ==> 0 < b < nextBlock && st[b].gen <= gen && st[b].prev < nextBlock
  }

  /** Left links lead to nodes. */
  ghost predicate LinksOk<V>(st: Store<V>)
  {
    forall b :: b in st ==> st[b].prev == 0 || st[b].prev in st
  }

  /** A frozen node's left link leads to a frozen node. */
  ghost predicate FrozenLinks<V>(st: Store<V>, barrier: nat)
  {
    forall b :: b in st && st[b].gen <= barrier && st[b].prev != 0 ==> st[b].prev in st && st[st[b].prev].gen <= barrier
  }

  lemma LinksKept<V>(st: Store<V>, st': Store<V>, barrier: nat)
    requires FrozenLinks(st, barrier) && FrozenKept(st, st', barrier)
    ensures FrozenLinks(st', barrier)
  {
  }

  /** A recorded past: its root, and the tree it stands for. */
  datatype Past<V> = Past(root: nat, ids: seq<nat>, ghost view: View<V>)

  /** The store still holds a recorded past, all of it frozen. */
  ghost predicate PastOk<V>(st: Store<V>, p: Past<V>, barrier: nat)
  {
    && Inv(p.view) && Plain(p.view) && Rep(st, p.ids, p.view) && p.view.root < |p.ids| && p.ids[p.view.root] == p.root
    && forall i :: 0 <= i < |p.ids| ==> p.ids[i] in st && st[p.ids[i]].gen <= barrier
  }

  /** A frozen view reads the same for as long as frozen nodes are kept. */
  lemma PastKept<V>(st: Store<V>, st': Store<V>, p: Past<V>, barrier: nat)
    requires PastOk(st, p, barrier) && FrozenKept(st, st', barrier)
    ensures PastOk(st', p, barrier)
  {
    hide Inv, Plain, Matches;
    forall i | 0 <= i < |p.ids| ensures NodeAt(st', p.ids, p.view, i) { assert NodeAt(st, p.ids, p.view, i); }
  }

  /** While nothing frozen has been disturbed, every recorded past is still there. */
  ghost predicate HistoryOk<V>(st: Store<V>, barrier: nat, cow: bool, clean: bool, pasts: seq<Past<V>>)
  {
    && (clean && cow ==> FrozenLinks(st, barrier))
    && (clean && |pasts| > 0 ==> cow)
    && (clean ==> forall x :: 0 <= x < |pasts| ==> PastOk(st, pasts[x], barrier))
  }

  lemma HistoryKept<V>(st: Store<V>, st': Store<V>, barrier: nat, cow: bool, clean: bool, pasts: seq<Past<V>>)
    requires HistoryOk(st, barrier, cow, clean, pasts) && (clean && cow ==> FrozenKept(st, st', barrier))
    ensures HistoryOk(st', barrier, cow, clean, pasts)
  {
    hide PastOk, FrozenKept, FrozenLinks;
    if clean && cow {
      LinksKept(st, st', barrier);
      forall x | 0 <= x < |pasts| ensures PastOk(st', pasts[x], barrier) { PastKept(st, st', pasts[x], barrier); }
    }
  }

  lemma KeptSelf<V>(st: Store<V>, barrier: nat)
    ensures FrozenKept(st, st, barrier)
  {
  }

  // ---------------------------------------------------------------------
  // Limits and shapes
  // ---------------------------------------------------------------------

  ghost predicate SizeWithin<V>(x: Node<V>, maxLeaf: nat, maxInner: nat)
  {
    match x
    case Leaf(_, es) => |es| < maxLeaf
    case Internal(_, cs, _) => |cs| <= maxInner
  }

  ghost predicate SizesBut<V>(v: View<V>, maxLeaf: nat, maxInner: nat, but: set<nat>)
  {
    forall i :: 0 <= i < |v.n| && i !in but ==> SizeWithin(v.n[i], maxLeaf, maxInner)
  }

  /** The regions of one structural epoch, and for each node the blocks it has been in since the epoch began. */
  datatype Shape = Shape(blocks: seq<set<nat>>, g: Map)

  ghost function FreshShape(ids: seq<nat>, g: Map): Shape
  {
    Shape(seq(|ids|, i requires 0 <= i < |ids| => {ids[i]}), g)
  }

  /** Since the epoch began nodes have only moved away from frozen blocks. */
  ghost predicate ShapeFits<V>(sh: Shape, ids: seq<nat>, g: Map, st: Store<V>, cow: bool, barrier: nat)
  {
    && sh.g == g && |sh.blocks| == |ids|
    && (forall i :: 0 <= i < |ids| ==> ids[i] in sh.blocks[i])
    && forall i :: 0 <= i < |ids| ==> LeftFrozen(sh.blocks[i], ids[i], st, cow, barrier)
  }

  ghost predicate LeftFrozen<V>(blocks: set<nat>, now: nat, st: Store<V>, cow: bool, barrier: nat)
  {
    forall b :: b in blocks ==> b == now || (cow && b in st && st[b].gen <= barrier)
  }

  lemma ShapeKept<V>(sh: Shape, ids: seq<nat>, g: Map, st: Store<V>, st': Store<V>, cow: bool, barrier: nat)
    requires ShapeFits(sh, ids, g, st, cow, barrier) && (cow ==> FrozenKept(st, st', barrier))
    ensures ShapeFits(sh, ids, g, st', cow, barrier)
  {
    forall i | 0 <= i < |ids| ensures LeftFrozen(sh.blocks[i], ids[i], st', cow, barrier) { assert LeftFrozen(sh.blocks[i], ids[i], st, cow, barrier); }
  }

  lemma FreshFits<V>(ids: seq<nat>, g: Map, st: Store<V>, cow: bool, barrier: nat)
    ensures ShapeFits(FreshShape(ids, g), ids, g, st, cow, barrier)
  {
  }

  /** Epochs are added, and blocks to the nodes of an epoch. */
  ghost predicate Grew(a: seq<Shape>, b: seq<Shape>)
  {
    |a| <= |b| && forall e :: 0 <= e < |a| ==> ShapeGrew(a[e], b[e])
  }

  ghost predicate ShapeGrew(a: Shape, b: Shape)
  {
    a.g == b.g && |a.blocks| == |b.blocks| && forall i :: 0 <= i < |a.blocks| ==> a.blocks[i] <= b.blocks[i]
  }

  lemma GrewTrans(a: seq<Shape>, b: seq<Shape>, c: seq<Shape>)
    requires Grew(a, b) && Grew(b, c)
    ensures Grew(a, c)
  {
    forall e | 0 <= e < |a| ensures ShapeGrew(a[e], c[e]) { assert ShapeGrew(a[e], b[e]) && ShapeGrew(b[e], c[e]); }
  }

  lemma GrewSelf(a: seq<Shape>)
    ensures Grew(a, a)
  {
  }

  lemma GrewOne(a: seq<Shape>, e: nat, sh: Shape)
    requires e < |a| && ShapeGrew(a[e], sh)
    ensures Grew(a, a[e := sh])
  {
  }

  lemma GrewBy(a: seq<Shape>, more: seq<Shape>)
    ensures Grew(a, a + more)
  {
  }

  // ---------------------------------------------------------------------
  // Paths
  // ---------------------------------------------------------------------

  /** Blocks of a walk from the root, with the nodes they hold. */
  ghost predicate OnPath<V>(path: seq<nat>, at: seq<nat>, ids: seq<nat>, v: View<V>)
  {
    && |path| == |at| && |ids| == |v.n| == |v.g|
    && (forall k :: 0 <= k < |at| ==> at[k] < |ids| && path[k] == ids[at[k]])
    && (|at| > 0 ==> at[0] == v.root)
    && (forall k :: 0 < k < |at| ==> v.n[at[k]].parent == Some(at[k - 1]) && v.g[at[k]].level + 1 == v.g[at[k - 1]].level)
  }

  lemma PathSnoc<V>(path: seq<nat>, at: seq<nat>, ids: seq<nat>, v: View<V>, c: nat)
    requires OnPath(path, at, ids, v) && at != [] && c < |ids|
    requires v.n[c].parent == Some(at[|at| - 1]) && v.g[c].level + 1 == v.g[at[|at| - 1]].level
    ensures OnPath(path + [ids[c]], at + [c], ids, v)
  {
    var at' := at + [c];
    forall k | 0 < k < |at'| ensures v.n[at'[k]].parent == Some(at'[k - 1]) && v.g[at'[k]].level + 1 == v.g[at'[k - 1]].level {
      if k < |at| { assert v.n[at[k]].parent == Some(at[k - 1]); }
    }
  }

  lemma {:induction false} PathLevels<V>(path: seq<nat>, at: seq<nat>, ids: seq<nat>, v: View<V>, x: nat, y: nat)
    requires OnPath(path, at, ids, v) && x < y < |at|
    ensures v.g[at[x]].level > v.g[at[y]].level && at[x] != at[y]
    decreases y - x
  {
    if x + 1 < y { PathLevels(path, at, ids, v, x + 1, y); }
  }

  lemma PathMoved<V>(path: seq<nat>, at: seq<nat>, ids: seq<nat>, v: View<V>, k: nat, c: nat)
    requires OnPath(path, at, ids, v) && k < |at|
    ensures OnPath(path[k := c], at, ids[at[k] := c], v)
  {
    forall x | 0 <= x < |at| ensures path[k := c][x] == ids[at[k] := c][at[x]] {
      if x < k { PathLevels(path, at, ids, v, x, k); } else if k < x { PathLevels(path, at, ids, v, k, x); }
    }
  }

  /** Block orig was copied to a new block c and the parent block, if given, repointed. */
  ghost predicate Copied<V>(st: Store<V>, st': Store<V>, orig: nat, c: nat, parent: Option<nat>, gen: nat)
  {
    && orig in st && c !in st && c != 0 && st'.Keys == st.Keys + {c}
    && SameBody(st'[c], st[orig]) && st'[c].gen > gen && st'[c].prev == st[orig].prev
    && (parent.Some? ==> parent.value in st && st'[parent.value].gen > gen && st'[parent.value].prev == st[parent.value].prev)
    && (parent.Some? ==> SameBody(st'[parent.value], ReplaceChild(st[parent.value], orig, c)))
    && forall b :: b in st && Some(b) != parent ==> st'[b] == st[b]
  }

  lemma CopyKept<V>(st: Store<V>, st': Store<V>, orig: nat, c: nat, parent: Option<nat>, barrier: nat, gen: nat)
    requires Copied(st, st', orig, c, parent, gen) && barrier <= gen && (parent.Some? ==> Private(st, [parent.value], barrier))
    ensures FrozenKept(st, st', barrier) && Raised(st, st', barrier) && Private(st', [c], barrier) && (LinksOk(st) ==> LinksOk(st')) && st.Keys <= st'.Keys
  {
    if parent.Some? { assert [parent.value][0] == parent.value; }
  }

  lemma CopyMoves<V>(st: Store<V>, ids: seq<nat>, v: View<V>, i: nat, c: nat, p: nat, st': Store<V>, gen: nat)
    requires Rep(st, ids, v) && i < |ids| && v.n[i].parent == Some(p) && p < |ids| && p != i
    requires Copied(st, st', ids[i], c, Some(ids[p]), gen)
    requires Inv(v)
    ensures Rep(st', ids[i := c], v)
  {
    hide Inv, Matches, ReplaceChild;
    forall k | 0 <= k < |ids| ensures ids[k] in st { RepNonZero(st, ids, v, k); }
    RepMoved(st, ids, v, i, c, st');
  }

  lemma CopyRoot<V>(st: Store<V>, ids: seq<nat>, v: View<V>, c: nat, st': Store<V>, gen: nat)
    requires Rep(st, ids, v) && v.root < |ids| && Copied(st, st', ids[v.root], c, None, gen)
    requires Inv(v)
    ensures Rep(st', ids[v.root := c], v)
  {
    hide Inv, Matches;
    forall k | 0 <= k < |ids| ensures ids[k] in st { RepNonZero(st, ids, v, k); }
    assert v.n[v.root].parent == None by { InvStruct(v); RootParent(v.n, v.g, v.root); }
    RepMoved(st, ids, v, v.root, c, st');
  }

  ghost function Joined(sh: Shape, i: nat, c: nat): Shape
    requires i < |sh.blocks|
  {
    sh.(blocks := sh.blocks[i := sh.blocks[i] + {c}])
  }

  lemma ShapeMoved<V>(sh: Shape, ids: seq<nat>, g: Map, st: Store<V>, barrier: nat, i: nat, c: nat)
    requires ShapeFits(sh, ids, g, st, true, barrier) && i < |ids| && ids[i] in st && st[ids[i]].gen <= barrier
    ensures i < |sh.blocks| && ShapeFits(Joined(sh, i, c), ids[i := c], g, st, true, barrier) && ShapeGrew(sh, Joined(sh, i, c))
  {
  }

  lemma OnPathAt<V>(path: seq<nat>, at: seq<nat>, ids: seq<nat>, v: View<V>, k: nat)
    requires OnPath(path, at, ids, v) && k < |path|
    ensures |path| == |at| && |ids| == |v.n| == |v.g| && at[k] < |ids| && path[k] == ids[at[k]]
    ensures k == 0 ==> at[k] == v.root
    ensures k > 0 ==> at[k - 1] < |ids| && v.n[at[k]].parent == Some(at[k - 1]) && at[k - 1] != at[k]
  {
  }

  lemma OneStep<V>(ids: seq<nat>, v: View<V>)
    requires |ids| == |v.n| == |v.g| && v.root < |ids|
    ensures OnPath([ids[v.root]], [v.root], ids, v)
  {
  }

  /** Every private block stays private. */
  ghost predicate Raised<V>(st: Store<V>, st': Store<V>, barrier: nat)
  {
    forall b :: b in st && st[b].gen > barrier ==> b in st' && st'[b].gen > barrier
  }

  /** All nodes of a path are private. */
  ghost predicate Private<V>(st: Store<V>, path: seq<nat>, barrier: nat)
  {
    forall k :: 0 <= k < |path| ==> path[k] in st && st[path[k]].gen > barrier
  }

  lemma NonePrivate<V>(st: Store<V>, barrier: nat)
    ensures Private(st, [], barrier)
  {
  }

  lemma PrivateAt<V>(st: Store<V>, path: seq<nat>, barrier: nat, k: nat)
    requires Private(st, path, barrier) && k < |path|
    ensures Private(st, [path[k]], barrier)
  {
  }

  lemma PrivateMore<V>(st: Store<V>, st': Store<V>, path: seq<nat>, block: nat, barrier: nat)
    requires Private(st, path, barrier) && Raised(st, st', barrier) && Private(st', [block], barrier)
    ensures Private(st', path + [block], barrier)
  {
    assert [block][0] == block;
  }

  lemma HeaderOf<V>(st: Store<V>, gen: nat, nextBlock: nat, b: nat)
    requires HeadersOk(st, gen, nextBlock) && b in st
    ensures 0 < b < nextBlock && st[b].gen <= gen && st[b].prev < nextBlock
  {
  }

  lemma ReplaceKeepsLinks<V>(x: DNode<V>, old_: nat, new_: nat)
    ensures ReplaceChild(x, old_, new_).prev == x.prev
  {
  }

  lemma FrozenStill<V>(st: Store<V>, st': Store<V>, b: nat, barrier: nat)
    requires FrozenKept(st, st', barrier) && b in st && st[b].gen <= barrier
    ensures b in st' && st'[b].gen <= barrier
  {
  }

  /** A node with a parent is not the root. */
  lemma DistinctRoot<V>(st: Store<V>, ids: seq<nat>, v: View<V>, i: nat)
    requires Inv(v) && i < |v.n| && v.n[i].parent.Some?
    ensures i != v.root
  {
    assert NodeOk(v.n, v.g, v.root, i);
  }

  lemma RepSizes<V>(st: Store<V>, ids: seq<nat>, v: View<V>)
    requires Rep(st, ids, v)
    ensures |ids| == |v.n| == |v.g|
  {
  }
}
