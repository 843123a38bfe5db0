/** Splits of stored nodes in progress: the halves are written, the parent is not, and each
    write brings the store closer to the tree after the split. */
module DiskPending {
  import opened Options
  import opened BeTreeModel
  import opened BeTreeMessages
  import opened BeTreeContent
  import opened BeTreeSplit
  import opened BeTreeState
  import opened BeTreeSteps
  import opened BeTreeCut
  import opened BT = BeTree
  import opened DiskModel
  import opened DiskSplit
  import opened DiskScan
  import opened DiskHistory

  // ---------------------------------------------------------------------
  // Splits in progress
  // ---------------------------------------------------------------------

  /** Node id of a stored tree is to be cut at b; the halves are being written. */
  datatype Cutting<V> = Cutting(st: Store<V>, ids: seq<nat>, ghost v: View<V>, id: nat, b: Key, mid: nat)

  ghost predicate CutOk<V>(c: Cutting<V>)
  {
    && Rep(c.st, c.ids, c.v) && Inv(c.v) && Plain(c.v) && c.v.root < |c.ids| && c.id < |c.ids| == |c.v.n| == |c.v.g|
    && BoundAt(c.v.n[c.id], c.mid, c.b)
  }

  /** Both halves are within the limits, and so is every other node. */
  ghost predicate CutFits<V>(c: Cutting<V>, maxLeaf: nat, maxInner: nat)
    requires c.id < |c.v.n|
  {
    && SizesBut(c.v, maxLeaf, maxInner, {c.id})
    && match c.v.n[c.id]
       case Leaf(_, es) => c.mid < maxLeaf && |es| - c.mid < maxLeaf
       case Internal(_, cs, _) => c.mid <= maxInner && |cs| - c.mid <= maxInner
  }

  /** The parent of a node is full. */
  ghost predicate Crowded<V>(v: View<V>, i: nat, maxInner: nat)
    requires i < |v.n|
  {
    v.n[i].parent.Some? && v.n[i].parent.value < |v.n| && |Kids(v.n[v.n[i].parent.value])| >= maxInner
  }

  /** The leaf that covers the key is full, and so is its parent. */
  ghost predicate CrowdedAt<V>(v: View<V>, key: Key, maxLeaf: nat, maxInner: nat)
  {
    |v.n| == |v.g| && exists i :: 0 <= i < |v.n| && v.n[i].Leaf? && In(v.g[i], key) && |v.n[i].entries| >= maxLeaf - 1 && Crowded(v, i, maxInner)
  }

  /** Whether dividing the node makes its parent divide too. */
  ghost predicate Spills<V>(c: Cutting<V>, maxInner: nat)
  {
    c.id < |c.v.n| && Crowded(c.v, c.id, maxInner)
  }

  ghost predicate OfLeaf<V>(c: Cutting<V>)
  {
    c.id < |c.v.n| && c.v.n[c.id].Leaf?
  }

  /** The leaf that covers the key has at most `bound` entries. */
  ghost predicate SmallAt<V>(v: View<V>, key: Key, bound: nat)
  {
    |v.n| == |v.g| && forall i :: 0 <= i < |v.n| && v.n[i].Leaf? && In(v.g[i], key) ==> |v.n[i].entries| <= bound
  }

  ghost predicate SmallAfter<V>(c: Cutting<V>, key: Key, bound: nat)
    requires c.id < |c.v.n| == |c.v.g|
  {
    match c.v.n[c.id]
    case Leaf(_, es) => In(c.v.g[c.id], key) && c.mid <= bound && |es| - c.mid <= bound
    case Internal(_, _, _) => SmallAt(c.v, key, bound)
  }

  /** The halves of a node are written; the node is reached by the path, whose last block is its parent. */
  ghost predicate HalfDone<V>(c: Cutting<V>, st: Store<V>, path: seq<nat>, left: nat, b: Key, right: nat, at: seq<nat>)
  {
    && c.b == b && c.id < |c.v.n| == |c.v.g| == |c.ids| && c.ids[c.id] == left && BoundAt(c.v.n[c.id], c.mid, b)
    && HalvesWritten(c.st, c.ids, c.id, c.mid, right, st)
    && |path| == |at| && OnPath(path + [left], at + [c.id], c.ids, c.v)
    && CutOk(c)
  }

  /** The limits hold after the cut. */
  ghost predicate WillFit<V>(c: Cutting<V>, maxLeaf: nat, maxInner: nat, key: Key, bound: nat)
  {
    c.id < |c.v.n| == |c.v.g| && CutFits(c, maxLeaf, maxInner) && SmallAfter(c, key, bound)
  }

  lemma LeavesOfCut<V>(c: Cutting<V>, key: Key, bound: nat, above: nat, k: nat, r: Region)
    requires CutOk(c) && SmallAfter(c, key, bound) && k <= |c.v.n|
    requires k < |c.v.n| && k != c.id ==> r == c.v.g[k]
    requires In(r, key) && CutNode(c.v.n, c.id, c.b, c.mid, above, k).Leaf?
    ensures |CutNode(c.v.n, c.id, c.b, c.mid, above, k).entries| <= bound
  {
    hide MsgInv, ContentInv, InRight, Plain, Rep;
    if c.v.n[c.id].Leaf? && k < |c.v.n| && k != c.id {
      LevelZero(c.v, k);
      LevelZero(c.v, c.id);
      OneNodePerKey(c.v.g, k, c.id, key);
    }
  }

  lemma UnderSmall<V>(c: Cutting<V>, key: Key, bound: nat, p: nat, j: nat)
    requires CutOk(c) && SmallAfter(c, key, bound) && p < |c.v.n| && p != c.id && c.v.n[p].Internal? && j < |c.v.n[p].children|
    ensures SmallAt(UnderView(c.v, c.id, c.b, c.mid, p, j), key, bound)
  {
    hide CutOk, SmallAfter, CutNode, Inv, Rep, Plain;
    assert c.id < |c.v.n| == |c.v.g| && BoundAt(c.v.n[c.id], c.mid, c.b) by { CutParts(c); }
    var v' := UnderView(c.v, c.id, c.b, c.mid, p, j);
    forall i | 0 <= i < |v'.n| && v'.n[i].Leaf? && In(v'.g[i], key) ensures |v'.n[i].entries| <= bound {
      LeavesOfCut(c, key, bound, p, i, v'.g[i]);
    }
  }

  lemma RootSmall<V>(c: Cutting<V>, key: Key, bound: nat)
    requires CutOk(c) && SmallAfter(c, key, bound) && c.id == c.v.root
    ensures SmallAt(RootView(c.v, c.b, c.mid), key, bound)
  {
    hide CutOk, SmallAfter, CutNode, Inv, Rep, Plain;
    CutParts(c);
    var v' := RootView(c.v, c.b, c.mid);
    forall i | 0 <= i < |v'.n| && v'.n[i].Leaf? && In(v'.g[i], key) ensures |v'.n[i].entries| <= bound {
      LeavesOfCut(c, key, bound, |c.v.n| + 1, i, v'.g[i]);
    }
  }

  /** Every leaf but the leftmost holds the very key its region starts at. */
  ghost predicate Anchored<V>(v: View<V>)
  {
    |v.n| == |v.g| && forall i :: 0 <= i < |v.n| && v.n[i].Leaf? && v.g[i].lo.Some? ==> HasKey(v.n[i].entries, v.g[i].lo.value)
  }

  lemma CutAnchors<V>(c: Cutting<V>, above: nat, k: nat)
    requires CutOk(c) && k <= |c.v.n| && Anchored(c.v) && CutNode(c.v.n, c.id, c.b, c.mid, above, k).Leaf? && CutRegions(c.v.g, c.id, c.b)[k].lo.Some?
    ensures HasKey(CutNode(c.v.n, c.id, c.b, c.mid, above, k).entries, CutRegions(c.v.g, c.id, c.b)[k].lo.value)
  {
    hide MsgInv, StructOk, InRight, Plain, Rep;
    if k == c.id {
      var es := c.v.n[c.id].entries;
      assert LeafOk(c.v.g[c.id], es);
      assert es[0] in es && es[..c.mid][0] == es[0];
    } else if k == |c.v.n| {
      assert c.v.n[c.id].entries[c.mid..][0].key == c.b;
    }
  }

  /** A leaf that holds the key its region starts at knows the floor of every key of the region, unless it is the first leaf. */
  lemma AnchoredFloor<V>(v: View<V>, i: nat, key: Key)
    requires Anchored(v) && i < |v.n| && v.n[i].Leaf? && In(v.g[i], key)
    ensures !StrandedAt(v.n[i].entries, v.g[i], v.model, key)
  {
    if v.g[i].lo.Some? {
      var es := v.n[i].entries;
      assert HasKey(es, v.g[i].lo.value);
      var x :| 0 <= x < |es| && es[x].key == v.g[i].lo.value;
      assert es[x] in es;
    }
  }

  lemma UnderAnchored<V>(c: Cutting<V>, p: nat, j: nat)
    requires CutOk(c) && p < |c.v.n| && p != c.id && c.v.n[p].Internal? && j < |c.v.n[p].children| && Anchored(c.v)
    ensures Anchored(UnderView(c.v, c.id, c.b, c.mid, p, j))
  {
    hide CutOk, Anchored, CutNode, HasKey, Inv, Rep, Plain;
    assert c.id < |c.v.n| == |c.v.g| && BoundAt(c.v.n[c.id], c.mid, c.b) by { CutParts(c); }
    var v' := UnderView(c.v, c.id, c.b, c.mid, p, j);
    forall i | 0 <= i < |v'.n| && v'.n[i].Leaf? && v'.g[i].lo.Some? ensures HasKey(v'.n[i].entries, v'.g[i].lo.value) { CutAnchors(c, p, i); }
    AllAnchored(v');
  }

  lemma RootAnchored<V>(c: Cutting<V>)
    requires CutOk(c) && c.id == c.v.root && Anchored(c.v)
    ensures Anchored(RootView(c.v, c.b, c.mid))
  {
    hide CutOk, Anchored, CutNode, HasKey, Inv, Rep, Plain;
    CutParts(c);
    var v' := RootView(c.v, c.b, c.mid);
    forall i | 0 <= i < |v'.n| && v'.n[i].Leaf? && v'.g[i].lo.Some? ensures HasKey(v'.n[i].entries, v'.g[i].lo.value) { CutAnchors(c, |c.v.n| + 1, i); }
    AllAnchored(v');
  }

  lemma AllAnchored<V>(v: View<V>)
    requires |v.n| == |v.g| && forall i :: 0 <= i < |v.n| && v.n[i].Leaf? && v.g[i].lo.Some? ==> HasKey(v.n[i].entries, v.g[i].lo.value)
    ensures Anchored(v)
  {
  }

  lemma CutParts<V>(c: Cutting<V>)
    requires CutOk(c)
    ensures c.id < |c.v.n| == |c.v.g| == |c.ids| && BoundAt(c.v.n[c.id], c.mid, c.b) && c.v.root < |c.ids|
    ensures Rep(c.st, c.ids, c.v) && Inv(c.v) && Plain(c.v)
  {
  }

  lemma UnderSizes<V>(c: Cutting<V>, maxLeaf: nat, maxInner: nat, p: nat, j: nat)
    requires CutOk(c) && CutFits(c, maxLeaf, maxInner) && p < |c.v.n| && p != c.id && c.v.n[p].Internal? && j < |c.v.n[p].children|
    ensures SizesBut(UnderView(c.v, c.id, c.b, c.mid, p, j), maxLeaf, maxInner, {p})
  {
    hide Rep, Inv, Plain, InRight;
    var v' := UnderView(c.v, c.id, c.b, c.mid, p, j);
    forall i | 0 <= i < |v'.n| && i != p ensures SizeWithin(v'.n[i], maxLeaf, maxInner) {
      assert v'.n[i] == CutNode(c.v.n, c.id, c.b, c.mid, p, i);
      if i < |c.v.n| && i != c.id { assert SizeWithin(c.v.n[i], maxLeaf, maxInner); }
    }
  }

  lemma RootSizes<V>(c: Cutting<V>, maxLeaf: nat, maxInner: nat)
    requires CutOk(c) && CutFits(c, maxLeaf, maxInner) && c.id == c.v.root && maxInner >= 2
    ensures SizesBut(RootView(c.v, c.b, c.mid), maxLeaf, maxInner, {})
  {
    hide Rep, Inv, Plain, InRight;
    var v' := RootView(c.v, c.b, c.mid);
    forall i | 0 <= i < |v'.n| ensures SizeWithin(v'.n[i], maxLeaf, maxInner) {
      if i <= |c.v.n| { assert v'.n[i] == CutNode(c.v.n, c.id, c.b, c.mid, |c.v.n| + 1, i); }
      if i < |c.v.n| && i != c.id { assert SizeWithin(c.v.n[i], maxLeaf, maxInner); }
    }
  }

  /** The store holds the tree v that a cut of c leads to; the root is where it was. */
  ghost predicate LinkedTo<V>(st: Store<V>, ids: seq<nat>, v: View<V>, c: Cutting<V>, maxLeaf: nat, maxInner: nat, key: Key, bound: nat)
  {
    && Inv(v) && Plain(v) && Rep(st, ids, v) && v.root < |ids| && c.v.root < |c.ids| && ids[v.root] == c.ids[c.v.root]
    && v.model == c.v.model && SizesBut(v, maxLeaf, maxInner, {}) && SmallAt(v, key, bound)
    && (Anchored(c.v) ==> Anchored(v))
  }

  function Ptrs(seps: seq<Sep>): (r: seq<nat>)
    ensures |r| == |seps| && forall x :: 0 <= x < |seps| ==> r[x] == seps[x].ptr
  {
    seq(|seps|, x requires 0 <= x < |seps| => seps[x].ptr)
  }

  /** The children of both halves are stored. */
  lemma KidsStored<V>(c: Cutting<V>, right: nat, st: Store<V>)
    requires CutOk(c) && HalvesWritten(c.st, c.ids, c.id, c.mid, right, st)
    ensures c.ids[c.id] in st && right in st && st[c.ids[c.id]].level == c.v.g[c.id].level
    ensures var x := st[c.ids[c.id]]; x.level > 0 ==> x.leftmost in st && forall j :: 0 <= j < |x.seps| ==> x.seps[j].ptr in st
    ensures var x := st[right]; x.level > 0 ==> x.leftmost in st && forall j :: 0 <= j < |x.seps| ==> x.seps[j].ptr in st
  {
    hide MsgInv, ContentInv, StructOk, Plain;
    var x := c.st[c.ids[c.id]];
    assert NodeAt(c.st, c.ids, c.v, c.id);
    assert c.v.n[c.id].Leaf? <==> c.v.g[c.id].level == 0 by { InvStruct(c.v); LevelZero(c.v, c.id); }
    forall k | 0 <= k < |c.ids| ensures c.ids[k] in st {
      if k != c.id { assert SameAt(c.st, st, c.ids[k], c.ids[k]); }
    }
  }

  /** The root has grown: the left half moved, the new root in its place, all other bodies as before. */
  ghost predicate Grown<V>(s0: Store<V>, st: Store<V>, left: nat, b: Key, right: nat, moved: nat)
  {
    && left in s0 && moved !in s0 && moved != 0 && st.Keys == s0.Keys + {moved} && SameBody(st[moved], s0[left])
    && st[left].level == s0[left].level + 1 && st[left].leftmost == moved && st[left].seps == [Sep(b, right)]
    && forall k :: k in s0 && k != left ==> SameBody(st[k], s0[k])
  }

  lemma SameButHeader<V>(x: DNode<V>, y: DNode<V>)
    requires y.level == x.level && y.leftmost == x.leftmost && y.seps == x.seps && y.items == x.items
    ensures SameBody(y, x)
  {
  }

  ghost predicate SameBodies<V>(st: Store<V>, st': Store<V>)
  {
    st'.Keys == st.Keys && forall b :: b in st ==> SameBody(st'[b], st[b])
  }

  lemma BodiesKeys<V>(st: Store<V>, st': Store<V>)
    requires SameBodies(st, st')
    ensures st'.Keys == st.Keys
  {
  }

  lemma ChangedMore<V>(s0: Store<V>, s1: Store<V>, st: Store<V>, left: nat, right: nat, moved: nat, gen: nat)
    requires OnlyChanged(s0, s1, {right}, gen) && s1.Keys == s0.Keys && st.Keys == s1.Keys + {moved} && moved !in s0 && left in s0
    requires st[left].gen > gen && st[moved].gen > gen && forall k :: k in s1 && k != left ==> st[k] == s1[k]
    ensures OnlyChanged(s0, st, {left, right}, gen)
  {
  }

  lemma GrownBy<V>(s0: Store<V>, s1: Store<V>, st: Store<V>, left: nat, b: Key, right: nat, moved: nat)
    requires left in s0 && moved !in s0 && moved != 0 && SameBodies(s0, s1)
    requires st.Keys == s0.Keys + {moved} && SameBody(st[moved], s0[left])
    requires st[left].level == s0[left].level + 1 && st[left].leftmost == moved && st[left].seps == [Sep(b, right)]
    requires forall k :: k in s1 && k != left ==> st[k] == s1[k]
    ensures Grown(s0, st, left, b, right, moved)
  {
  }

  lemma GrowDone<V>(c: Cutting<V>, right: nat, s0: Store<V>, moved: nat, st: Store<V>, maxLeaf: nat, maxInner: nat, key: Key, bound: nat)
    requires c.id < |c.v.n| == |c.v.g| == |c.ids| && BoundAt(c.v.n[c.id], c.mid, c.b) && c.id == c.v.root && maxInner >= 2
    requires HalvesWritten(c.st, c.ids, c.id, c.mid, right, s0) && Grown(s0, st, c.ids[c.id], c.b, right, moved)
    requires CutFits(c, maxLeaf, maxInner) && SmallAfter(c, key, bound)
    requires CutOk(c)
    ensures LinkedTo(st, (c.ids + [right])[c.id := moved] + [c.ids[c.id]], RootView(c.v, c.b, c.mid), c, maxLeaf, maxInner, key, bound)
  {
    hide Inv, Plain, Rep, CutOk, CutFits, SmallAfter, HalvesWritten, SizesBut, SmallAt, CutArena, Anchored;
    CutParts(c);
    var v', ids' := RootView(c.v, c.b, c.mid), c.ids + [right];
    assert c.v.n[c.v.root].parent == None by { InvStruct(c.v); RootParent(c.v.n, c.v.g, c.v.root); }
    RootViewOk(c.v, c.b, c.mid);
    RootHalves(c.st, c.ids, c.v, c.b, c.mid, right, s0);
    forall k | 0 <= k < |ids'| ensures ids'[k] in s0 && ids'[k] != moved { assert HalfAt(s0, ids', v', k); }
    forall k | 0 <= k < |ids'| && k != c.id ensures SameAt(s0, st, ids'[k], ids'[k]) {
      assert ids'[k] != ids'[c.id];
    }
    assert HalfAt(s0, ids', v', c.id);
    RootGrown(s0, ids', v', c.id, c.b, moved, st);
    RootSizes(c, maxLeaf, maxInner);
    RootSmall(c, key, bound);
    if Anchored(c.v) { RootAnchored(c); }
  }

  /** Blocks outside the given set are as they were; new and changed ones have new stamps. */
  ghost predicate OnlyChanged<V>(s0: Store<V>, st: Store<V>, changed: set<nat>, gen: nat)
  {
    && s0.Keys <= st.Keys
    && (forall b :: b in s0 && b !in changed ==> st[b] == s0[b])
    && forall b :: b in st && (b !in s0 || b in changed) ==> st[b].gen > gen
  }

  lemma ChangedKept<V>(s0: Store<V>, st: Store<V>, changed: set<nat>, barrier: nat, gen: nat)
    requires OnlyChanged(s0, st, changed, gen) && barrier <= gen && forall b :: b in changed && b in s0 ==> s0[b].gen > barrier
    ensures FrozenKept(s0, st, barrier) && Raised(s0, st, barrier)
  {
  }

  lemma GrowLinks<V>(s0: Store<V>, st: Store<V>, left: nat, right: nat, moved: nat)
    requires left in s0 && right in s0 && st.Keys == s0.Keys + {moved} && st[left].prev == 0 && st[moved].prev == s0[left].prev
    requires st[right].prev == s0[right].prev || st[right].prev == moved
    requires forall b :: b in s0 && b != left && b != right ==> st[b].prev == s0[b].prev
    ensures LinksOk(s0) ==> LinksOk(st)
  {
  }

  /** Node p, in block pb, is the parent of the node being divided, which is its child number j. */
  ghost predicate ParentIs<V>(c: Cutting<V>, st: Store<V>, p: nat, j: nat, pb: nat)
    requires c.id < |c.v.n| == |c.ids|
  {
    && p < |c.ids| && p != c.id && c.ids[p] == pb && c.v.n[c.id].parent == Some(p) && c.v.n[p].Internal?
    && j < |c.v.n[p].children| && c.v.n[p].children[j].id == c.id
    && pb in st && pb in c.st && SameBody(st[pb], c.st[pb]) && st[pb].level > 0 && j <= |st[pb].seps|
    && MatchesKids(st[pb], c.v.n[p].children, c.ids)
  }

  lemma ThroughParts<V>(c: Cutting<V>, right: nat, next: Cutting<V>, j: nat)
    requires c.id < |c.v.n| == |c.v.g| == |c.ids| && BoundAt(c.v.n[c.id], c.mid, c.b) && next.id < |c.v.n| && c.v.n[next.id].Internal? && j < |c.v.n[next.id].children|
    requires next.ids == c.ids + [right] && next.v == UnderView(c.v, c.id, c.b, c.mid, next.id, j)
    ensures next.v.root == c.v.root && next.v.model == c.v.model && next.ids[..|c.ids|] == c.ids
  {
  }

  /** What is known of the parent of a node being divided. */
  lemma ParentReady<V>(c: Cutting<V>, right: nat, st: Store<V>, path: seq<nat>, at: seq<nat>) returns (j: nat)
    requires c.id < |c.v.n| == |c.v.g| == |c.ids| && path != [] && |path| == |at|
    requires OnPath(path + [c.ids[c.id]], at + [c.id], c.ids, c.v) && HalvesWritten(c.st, c.ids, c.id, c.mid, right, st)
    requires CutOk(c)
    ensures ParentIs(c, st, at[|at| - 1], j, path[|path| - 1]) && Cuts(c.v.g[c.id], c.b)
  {
    hide Inv, Plain, Matches;
    var p, pb := at[|at| - 1], path[|path| - 1];
    var k := |at|;
    assert (at + [c.id])[k] == c.id && (at + [c.id])[k - 1] == p && (path + [c.ids[c.id]])[k - 1] == pb;
    InvStruct(c.v);
    ParentLevel(c.v.n, c.v.g, c.v.root, c.id, p);
    j := ChildIndex(c.v.n, c.v.g, c.v.root, c.id);
    CutsInside(c.v, c.id, c.b, c.mid);
    assert NodeAt(c.st, c.ids, c.v, p) && SameAt(c.st, st, c.ids[p], c.ids[p]);
    assert MatchesKids(st[pb], c.v.n[p].children, c.ids) && st[pb].level > 0 by { ParentBody(c.st[pb], st[pb], c.v.n[p], c.v.g[p].level, c.ids); }
  }

  lemma KidsCount<V>(x: DNode<V>, a: Node<V>, ids: seq<nat>)
    requires a.Internal? && MatchesKids(x, a.children, ids)
    ensures |Kids(a)| == |x.seps| + 1
  {
  }

  /** The root has no parent; a leaf is at level 0. */
  lemma NoParent<V>(c: Cutting<V>)
    requires c.id < |c.v.n| == |c.v.g| && c.id == c.v.root
    requires CutOk(c)
    ensures c.v.n[c.id].parent == None && (c.v.n[c.id].Leaf? <==> c.v.g[c.id].level == 0)
  {
    hide Rep, Plain;
    InvStruct(c.v);
    RootParent(c.v.n, c.v.g, c.v.root);
    LevelZero(c.v, c.id);
  }

  lemma ParentBody<V>(x: DNode<V>, y: DNode<V>, a: Node<V>, level: nat, ids: seq<nat>)
    requires Matches(x, a, level, ids) && SameBody(y, x) && a.Internal?
    ensures MatchesKids(y, a.children, ids) && y.level == level > 0
  {
  }

  lemma SplitOfPath<V>(path: seq<nat>, at: seq<nat>, ids: seq<nat>, v: View<V>, x: nat, i: nat)
    requires OnPath(path + [x], at + [i], ids, v) && |path| == |at|
    ensures path == [] ==> i == v.root
    ensures i < |ids| == |v.n| == |v.g|
  {
    assert (at + [i])[|at|] == i;
  }

  /** The parent got its separator: the cut is done. */
  lemma UnderDone<V>(c: Cutting<V>, right: nat, p: nat, j: nat, s0: Store<V>, st: Store<V>, maxLeaf: nat, maxInner: nat, key: Key, bound: nat)
    requires c.id < |c.v.n| == |c.v.g| == |c.ids| && BoundAt(c.v.n[c.id], c.mid, c.b)
    requires p < |c.ids| && p != c.id && c.v.n[p].Internal? && j < |c.v.n[p].children| && c.v.n[p].children[j].id == c.id && c.v.n[c.id].parent == Some(p)
    requires HalvesWritten(c.st, c.ids, c.id, c.mid, right, s0) && c.ids[p] in s0 && c.ids[p] in c.st && SameBody(s0[c.ids[p]], c.st[c.ids[p]])
    requires s0[c.ids[p]].level > 0 && j <= |s0[c.ids[p]].seps| && c.ids[p] in st && s0.Keys <= st.Keys
    requires SameBody(st[c.ids[p]], WithSep(s0[c.ids[p]], j, c.b, right)) && forall b :: b in s0 && b != c.ids[p] ==> st[b] == s0[b]
    requires CutFits(c, maxLeaf, maxInner) && SmallAfter(c, key, bound)
    requires CutOk(c)
    ensures Rep(st, c.ids + [right], UnderView(c.v, c.id, c.b, c.mid, p, j))
    ensures Inv(UnderView(c.v, c.id, c.b, c.mid, p, j)) && Plain(UnderView(c.v, c.id, c.b, c.mid, p, j))
    ensures SizesBut(UnderView(c.v, c.id, c.b, c.mid, p, j), maxLeaf, maxInner, {p})
    ensures SmallAt(UnderView(c.v, c.id, c.b, c.mid, p, j), key, bound)
    ensures Anchored(c.v) ==> Anchored(UnderView(c.v, c.id, c.b, c.mid, p, j))
  {
    hide CutOk, CutFits, SmallAfter, HalvesWritten, Inv, Plain, Rep, SizesBut, SmallAt, UnderView, RepBut, Anchored;
    CutParts(c);
    UnderViewOk(c.v, c.id, c.b, c.mid, p, j);
    UnderPending(c.st, c.ids, c.v, c.id, c.b, c.mid, p, j, right, s0);
    UnderLinked(c.st, c.ids, c.v, c.id, c.b, c.mid, p, j, right, s0, st);
    UnderSizes(c, maxLeaf, maxInner, p, j);
    UnderSmall(c, key, bound, p, j);
    if Anchored(c.v) { UnderAnchored(c, p, j); }
  }

  lemma LinkedBelow<V>(c: Cutting<V>, right: nat, p: nat, j: nat, s0: Store<V>, st: Store<V>, maxLeaf: nat, maxInner: nat, key: Key, bound: nat)
    requires c.id < |c.v.n| == |c.v.g| == |c.ids| && BoundAt(c.v.n[c.id], c.mid, c.b)
    requires p < |c.ids| && p != c.id && c.v.n[p].Internal? && j < |c.v.n[p].children| && c.v.n[p].children[j].id == c.id && c.v.n[c.id].parent == Some(p)
    requires HalvesWritten(c.st, c.ids, c.id, c.mid, right, s0) && c.ids[p] in s0 && c.ids[p] in c.st && SameBody(s0[c.ids[p]], c.st[c.ids[p]])
    requires s0[c.ids[p]].level > 0 && j <= |s0[c.ids[p]].seps| && MatchesKids(s0[c.ids[p]], c.v.n[p].children, c.ids) && |s0[c.ids[p]].seps| < maxInner - 1
    requires c.ids[p] in st && s0.Keys <= st.Keys
    requires st[c.ids[p]].(gen := 0) == WithSep(s0[c.ids[p]], j, c.b, right).(gen := 0) && forall b :: b in s0 && b != c.ids[p] ==> st[b] == s0[b]
    requires CutFits(c, maxLeaf, maxInner) && SmallAfter(c, key, bound)
    requires CutOk(c)
    ensures LinkedTo(st, c.ids + [right], UnderView(c.v, c.id, c.b, c.mid, p, j), c, maxLeaf, maxInner, key, bound)
  {
    hide CutOk, CutFits, SmallAfter, HalvesWritten, Inv, Plain, Rep, SmallAt, CutArena, Anchored;
    CutParts(c);
    var x, y := st[c.ids[p]], WithSep(s0[c.ids[p]], j, c.b, right);
    assert x.level == x.(gen := 0).level == y.(gen := 0).level == y.level;
    assert x.seps == x.(gen := 0).seps == y.(gen := 0).seps == y.seps;
    assert x.leftmost == x.(gen := 0).leftmost == y.(gen := 0).leftmost == y.leftmost;
    UnderDone(c, right, p, j, s0, st, maxLeaf, maxInner, key, bound);
    var v' := UnderView(c.v, c.id, c.b, c.mid, p, j);
    assert |v'.n[p].children| <= maxInner by { LinkedLength(s0[c.ids[p]], c.v.n[p].children, c.ids, j, c.b, |c.v.n|); }
    AllWithin(v', maxLeaf, maxInner, p);
  }

  lemma LinkedLength<V>(x: DNode<V>, cs: seq<Child>, ids: seq<nat>, j: nat, b: Key, r: nat)
    requires MatchesKids(x, cs, ids) && j < |cs|
    ensures |DiskSplit.Linked(cs, j, b, r)| == |x.seps| + 2
  {
  }

  lemma AllWithin<V>(v: View<V>, maxLeaf: nat, maxInner: nat, p: nat)
    requires SizesBut(v, maxLeaf, maxInner, {p}) && p < |v.n| && SizeWithin(v.n[p], maxLeaf, maxInner)
    ensures SizesBut(v, maxLeaf, maxInner, {})
  {
  }

  lemma WroteParent<V>(s0: Store<V>, st: Store<V>, path: seq<nat>, left: nat, right: nat, barrier: nat, gen: nat)
    requires path != [] && Private(s0, path + [left, right], barrier) && barrier <= gen
    requires var pb := path[|path| - 1]; pb in st && st[pb].gen > gen && st == s0[pb := st[pb]]
    ensures FrozenKept(s0, st, barrier)
  {
    var pb := path[|path| - 1];
    assert (path + [left, right])[|path| - 1] == pb;
    KeptWrite(s0, pb, st[pb], barrier);
  }

  lemma LinksSame<V>(s0: Store<V>, st: Store<V>)
    requires st.Keys == s0.Keys && forall b :: b in s0 ==> st[b].prev == s0[b].prev
    ensures LinksOk(s0) ==> LinksOk(st)
  {
  }

  /** The pending division of a parent that its new separator makes too large. */
  lemma InnerCut<V>(c: Cutting<V>, right: nat, p: nat, j: nat, s0: Store<V>, pb: nat, items: seq<Sep>, maxLeaf: nat, maxInner: nat, key: Key, bound: nat)
    returns (next: Cutting<V>)
    requires c.id < |c.v.n| == |c.v.g| == |c.ids| && BoundAt(c.v.n[c.id], c.mid, c.b)
    requires p < |c.ids| && p != c.id && c.v.n[p].Internal? && j < |c.v.n[p].children| && c.v.n[p].children[j].id == c.id && c.v.n[c.id].parent == Some(p)
    requires HalvesWritten(c.st, c.ids, c.id, c.mid, right, s0) && c.ids[p] == pb && pb in s0 && pb in c.st && SameBody(s0[pb], c.st[pb])
    requires s0[pb].level > 0 && j <= |s0[pb].seps| && MatchesKids(s0[pb], c.v.n[p].children, c.ids) && |s0[pb].seps| >= maxInner - 1 && maxInner >= 3
    requires items == s0[pb].seps[..j] + [Sep(c.b, right)] + s0[pb].seps[j..]
    requires CutFits(c, maxLeaf, maxInner) && SmallAfter(c, key, bound)
    requires CutOk(c)
    ensures |items| == maxInner
    ensures next.st == s0[pb := WithSep(s0[pb], j, c.b, right)] && next.ids == c.ids + [right] && next.id == p
    ensures next.v == UnderView(c.v, c.id, c.b, c.mid, p, j) && next.mid == |items| / 2 + 1 && next.b == items[|items| / 2].key
    ensures next.id < |next.v.n| == |next.v.g| == |next.ids| && BoundAt(next.v.n[next.id], next.mid, next.b)
    ensures CutFits(next, maxLeaf, maxInner) && SmallAfter(next, key, bound)
    ensures Anchored(c.v) ==> Anchored(next.v)
    ensures CutOk(next)
  {
    hide Anchored, SmallAfter, HalvesWritten, Inv, Plain, Rep, SmallAt, CutArena;
    var st1 := s0[pb := WithSep(s0[pb], j, c.b, right)];
    UnderDone(c, right, p, j, s0, st1, maxLeaf, maxInner, key, bound);
    var v1, ids1 := UnderView(c.v, c.id, c.b, c.mid, p, j), c.ids + [right];
    assert SizeWithin(c.v.n[p], maxLeaf, maxInner);
    LinkedMatches(s0[pb], c.v.n[p].children, c.ids, j, c.b, right);
    var mid := |items| / 2;
    next := Cutting(st1, ids1, v1, p, items[mid].key, mid + 1);
    assert v1.n[p].children[mid + 1].bound == Some(items[mid].key) by {
      InvStruct(v1);
      assert Kids(v1.n[p]) == v1.n[p].children;
      assert ChildOk(v1.n, v1.g, p, mid + 1);
    }
    assert SmallAfter(next, key, bound) by { SmallInner(next, key, bound); }
  }

  lemma SmallInner<V>(c: Cutting<V>, key: Key, bound: nat)
    requires c.id < |c.v.n| == |c.v.g| && c.v.n[c.id].Internal? && SmallAt(c.v, key, bound)
    ensures SmallAfter(c, key, bound)
  {
  }

  lemma PtrsStored<V>(c: Cutting<V>, right: nat, s0: Store<V>, p: nat, j: nat, pb: nat, items: seq<Sep>)
    requires c.id < |c.ids| && p < |c.ids| == |c.v.n| && c.ids[p] == pb && pb in s0 && c.v.n[p].Internal? && MatchesKids(s0[pb], c.v.n[p].children, c.ids)
    requires HalvesWritten(c.st, c.ids, c.id, c.mid, right, s0) && j <= |s0[pb].seps|
    requires items == s0[pb].seps[..j] + [Sep(c.b, right)] + s0[pb].seps[j..]
    ensures forall x :: 0 <= x < |items| ==> items[x].ptr in s0
  {
    forall k | 0 <= k < |c.ids| ensures c.ids[k] in s0 {
      if k != c.id { assert SameAt(c.st, s0, c.ids[k], c.ids[k]); }
    }
    forall x | 0 <= x < |items| ensures items[x].ptr in s0 {
      if x < j { assert items[x] == s0[pb].seps[x]; } else if x > j { assert items[x] == s0[pb].seps[x - 1]; }
    }
  }

  /** An inner node was divided: the middle separator is in neither half, all other bodies are as they were. */
  ghost predicate InnerWritten<V>(s0: Store<V>, st: Store<V>, pb: nat, items: seq<Sep>, right: nat, gen: nat)
  {
    && pb in s0 && s0[pb].level > 0 && |items| > 0 && right !in s0 && right != 0 && st.Keys == s0.Keys + {right}
    && SameBody(st[pb], LeftBody(s0[pb].(seps := items), |items| / 2 + 1)) && SameBody(st[right], RightBody(s0[pb].(seps := items), |items| / 2 + 1))
    && (forall b :: b in s0 && b != pb ==> SameBody(st[b], s0[b])) && (forall b :: b in s0 ==> st[b].gen >= s0[b].gen)
    && st[pb].gen > gen && st[right].gen > gen
  }

  lemma InnerWrote<V>(s0: Store<V>, s1: Store<V>, st: Store<V>, pb: nat, items: seq<Sep>, right: nat, gen: nat)
    requires pb in s0 && s0[pb].level > 0 && |items| > 0 && right !in s0 && right != 0 && right != pb && s1.Keys == s0.Keys + {right}
    requires var mid := |items| / 2;
      && s1[right].level == s0[pb].level && s1[right].leftmost == items[mid].ptr && s1[right].seps == items[mid + 1..] && s1[right].prev == 0
      && s1[pb].level == s0[pb].level && s1[pb].leftmost == s0[pb].leftmost && s1[pb].seps == items[..mid] && s1[pb].prev == s0[pb].prev
    requires s1[pb].gen > gen && s1[right].gen > gen && gen >= s0[pb].gen && forall b :: b in s0 && b != pb ==> s1[b] == s0[b]
    requires st.Keys == s1.Keys && forall b :: b in s1 ==> SameBody(st[b], s1[b]) && st[b].prev == s1[b].prev && st[b].gen >= s1[b].gen
    ensures InnerWritten(s0, st, pb, items, right, gen) && (LinksOk(s0) ==> LinksOk(st))
  {
  }

  /** None of the nodes pointed to is frozen. */
  ghost predicate AllPrivate<V>(st: Store<V>, seps: seq<Sep>, barrier: nat)
  {
    forall x :: 0 <= x < |seps| && seps[x].ptr in st ==> st[seps[x].ptr].gen > barrier
  }

  lemma MovedPtrs(seps: seq<Sep>, moved: seq<nat>)
    requires seps != [] && moved == [seps[0].ptr] + Ptrs(seps[1..])
    ensures |moved| == |seps| && forall x :: 0 <= x < |seps| ==> moved[x] == seps[x].ptr
  {
  }

  /** Telling children of their new parent restamps them: frozen nodes are kept if and only if none of those children is frozen. */
  lemma RestampedKept<V>(s0: Store<V>, s1: Store<V>, st: Store<V>, pb: nat, seps: seq<Sep>, moved: seq<nat>, right: nat, barrier: nat, gen: nat)
    requires pb in s0 && s0[pb].gen > barrier && right !in s0 && s1.Keys == s0.Keys + {right} && st.Keys == s1.Keys && barrier <= gen
    requires s1[pb].gen > gen && s1[right].gen > gen && forall b :: b in s0 && b != pb ==> s1[b] == s0[b]
    requires |moved| == |seps| && (forall x :: 0 <= x < |seps| ==> moved[x] == seps[x].ptr && moved[x] in s0)
    requires (forall b :: b in st && b !in moved ==> st[b] == s1[b]) && forall x :: 0 <= x < |moved| ==> st[moved[x]].gen > gen
    ensures FrozenKept(s0, st, barrier) <==> AllPrivate(s0, seps, barrier)
  {
    if AllPrivate(s0, seps, barrier) {
      forall b | b in moved ensures b in s0 && s0[b].gen > barrier && st[b].gen > barrier {
        var x :| 0 <= x < |moved| && moved[x] == b;
      }
    }
    if FrozenKept(s0, st, barrier) {
      forall x | 0 <= x < |seps| ensures s0[seps[x].ptr].gen > barrier { assert st[moved[x]].gen > barrier; }
    }
  }

  lemma InnerHalves<V>(next: Cutting<V>, s0: Store<V>, st: Store<V>, pb: nat, items: seq<Sep>, right: nat, gen: nat)
    requires next.id < |next.ids| == |next.v.n| && next.ids[next.id] == pb && pb in s0 && s0[pb].level > 0 && |items| >= 2
    requires next.st == s0[pb := s0[pb].(seps := items)] && next.mid == |items| / 2 + 1
    requires InnerWritten(s0, st, pb, items, right, gen)
    requires CutOk(next)
    ensures HalvesWritten(next.st, next.ids, next.id, next.mid, right, st)
  {
    hide Inv, Plain, Matches;
    forall k | 0 <= k < |next.ids| ensures next.ids[k] in next.st && next.ids[k] != 0 { RepNonZero(next.st, next.ids, next.v, k); }
    forall k | 0 <= k < |next.ids| && k != next.id ensures SameAt(next.st, st, next.ids[k], next.ids[k]) {
      assert next.ids[k] != pb;
    }
  }

  lemma PathAbove<V>(path: seq<nat>, at: seq<nat>, c: Cutting<V>, right: nat, p: nat, j: nat, next: Cutting<V>)
    requires path != [] && |path| == |at| && c.id < |c.ids| == |c.v.n| == |c.v.g| && BoundAt(c.v.n[c.id], c.mid, c.b)
    requires p < |c.v.n| && p != c.id && c.v.n[p].Internal? && j < |c.v.n[p].children| && at[|at| - 1] == p && path[|path| - 1] == c.ids[p]
    requires OnPath(path + [c.ids[c.id]], at + [c.id], c.ids, c.v)
    requires next.ids == c.ids + [right] && next.id == p && next.v == UnderView(c.v, c.id, c.b, c.mid, p, j)
    requires CutOk(c)
    ensures |path[..|path| - 1]| == |at[..|at| - 1]| && OnPath(path[..|path| - 1] + [c.ids[p]], at[..|at| - 1] + [p], next.ids, next.v)
  {
    hide Inv, Plain, Rep, CutArena, CutNode, CutOk, OnPath, BoundAt;
    assert path[..|path| - 1] + [c.ids[p]] == path && at[..|at| - 1] + [p] == at;
    PathInit(path, at, c.ids, c.v, c.ids[c.id], c.id);
    forall k | 0 <= k < |at| ensures at[k] < |c.ids| && next.ids[at[k]] == c.ids[at[k]] && SameHeader(c.v, next.v, at[k]) {
      HigherKept(path, at, c, p, j, k);
    }
    PathStays(path, at, c.ids, c.v, next.ids, next.v);
  }

  lemma PathInit<V>(path: seq<nat>, at: seq<nat>, ids: seq<nat>, v: View<V>, x: nat, i: nat)
    requires OnPath(path + [x], at + [i], ids, v) && |path| == |at|
    ensures OnPath(path, at, ids, v)
  {
    var at' := at + [i];
    forall k | 0 <= k < |at| ensures at[k] < |ids| && path[k] == ids[at[k]] { assert at'[k] == at[k] && (path + [x])[k] == path[k]; }
    forall k | 0 < k < |at| ensures v.n[at[k]].parent == Some(at[k - 1]) && v.g[at[k]].level + 1 == v.g[at[k - 1]].level {
      assert at'[k] == at[k] && at'[k - 1] == at[k - 1];
    }
    assert |at| > 0 ==> at'[0] == at[0];
  }

  /** A path stays one as long as its nodes keep their blocks, parents and levels. */
  lemma PathStays<V>(path: seq<nat>, at: seq<nat>, ids: seq<nat>, v: View<V>, ids': seq<nat>, v': View<V>)
    requires OnPath(path, at, ids, v) && |ids'| == |v'.n| == |v'.g| && v'.root == v.root
    requires forall k :: 0 <= k < |at| ==> at[k] < |ids| && at[k] < |ids'| && ids'[at[k]] == ids[at[k]] && SameHeader(v, v', at[k])
    ensures OnPath(path, at, ids', v')
  {
    forall k | 0 < k < |at| ensures v'.n[at[k]].parent == Some(at[k - 1]) && v'.g[at[k]].level + 1 == v'.g[at[k - 1]].level {
      assert SameHeader(v, v', at[k]) && SameHeader(v, v', at[k - 1]);
    }
  }

  ghost predicate SameHeader<V>(v: View<V>, v': View<V>, i: nat)
  {
    i < |v.n| && i < |v.g| && i < |v'.n| && i < |v'.g| && v'.n[i].parent == v.n[i].parent && v'.g[i].level == v.g[i].level
  }

  /** Nodes above the one being divided keep their parents and levels. */
  lemma HigherKept<V>(path: seq<nat>, at: seq<nat>, c: Cutting<V>, p: nat, j: nat, k: nat)
    requires |path| == |at| && k < |at| && c.id < |c.ids| == |c.v.n| == |c.v.g| && BoundAt(c.v.n[c.id], c.mid, c.b)
    requires p < |c.v.n| && p != c.id && c.v.n[p].Internal? && j < |c.v.n[p].children|
    requires OnPath(path + [c.ids[c.id]], at + [c.id], c.ids, c.v)
    requires CutOk(c)
    ensures at[k] < |c.ids| && path[k] == c.ids[at[k]] && SameHeader(c.v, UnderView(c.v, c.id, c.b, c.mid, p, j), at[k])
  {
    hide Inv, Plain, Rep, InRight;
    var full := at + [c.id];
    assert full[k] == at[k] && full[|at|] == c.id && (path + [c.ids[c.id]])[k] == path[k];
    PathLevels(path + [c.ids[c.id]], full, c.ids, c.v, k, |at|);
    NotKid(c, at[k]);
  }

  /** A higher node is no child. */
  lemma NotKid<V>(c: Cutting<V>, k: nat)
    requires CutOk(c) && k < |c.v.n| && c.v.g[k].level > c.v.g[c.id].level
    ensures !InRight(Kids(c.v.n[c.id]), c.mid, k)
  {
    hide MsgInv, ContentInv, Plain, Rep;
    forall x | 0 <= x < |Kids(c.v.n[c.id])| ensures Kids(c.v.n[c.id])[x].id != k { assert ChildOk(c.v.n, c.v.g, c.id, x); }
  }

  lemma PrivateAbove<V>(s0: Store<V>, st: Store<V>, path: seq<nat>, left: nat, right: nat, pb: nat, items: seq<Sep>, rightInner: nat, barrier: nat, gen: nat)
    requires path != [] && path[|path| - 1] == pb && Private(s0, path + [left, right], barrier) && barrier <= gen
    requires InnerWritten(s0, st, pb, items, rightInner, gen)
    ensures Private(st, path[..|path| - 1] + [pb, rightInner], barrier)
  {
    forall k | 0 <= k < |path| ensures path[k] in st && st[path[k]].gen > barrier { assert (path + [left, right])[k] == path[k]; }
  }

  lemma LinkedThrough<V>(st: Store<V>, ids: seq<nat>, v: View<V>, c: Cutting<V>, next: Cutting<V>, maxLeaf: nat, maxInner: nat, key: Key, bound: nat)
    requires LinkedTo(st, ids, v, next, maxLeaf, maxInner, key, bound) && c.v.root < |c.ids|
    requires next.v.root == c.v.root && next.v.model == c.v.model && |c.ids| <= |next.ids| && next.ids[..|c.ids|] == c.ids
    requires Anchored(c.v) ==> Anchored(next.v)
    ensures LinkedTo(st, ids, v, c, maxLeaf, maxInner, key, bound)
  {
    assert next.ids[..|c.ids|][c.v.root] == c.ids[c.v.root];
  }

  /** A copy of a leaf in memory: its content is what is stored; its header may be older. */
  ghost predicate AsStored<V>(st: Store<V>, leaf: nat, node: DNode<V>)
  {
    leaf in st && node.level == 0 && node.items == st[leaf].items && (node.prev == 0 || node.prev in st)
  }

  /** A leaf was divided; the node to its right may have been told, all other nodes are as they were. */
  ghost predicate LeafWritten<V>(s0: Store<V>, st: Store<V>, leaf: nat, mid: nat, right: nat, gen: nat)
  {
    && leaf in s0 && s0[leaf].level == 0 && mid <= |s0[leaf].items| && right !in s0 && right != 0 && right != leaf && st.Keys == s0.Keys + {right}
    && st[leaf].level == 0 && st[leaf].items == s0[leaf].items[..mid] && st[leaf].gen > gen
    && st[right].level == 0 && st[right].items == s0[leaf].items[mid..] && st[right].gen > gen
    && forall b :: b in s0 && b != leaf ==> st[b] == s0[b] || (SameBody(st[b], s0[b]) && s0[b].prev == leaf && st[b].gen > gen)
  }

  lemma LeafWrote<V>(s0: Store<V>, s1: Store<V>, st: Store<V>, leaf: nat, mid: nat, right: nat, next: nat, gen: nat)
    requires leaf in s0 && s0[leaf].level == 0 && mid <= |s0[leaf].items| && right !in s0 && right != 0
    requires s1 == s0 || (next in s0 && s0[next].prev == leaf && s1.Keys == s0.Keys && s1[next].gen > gen && s1[next] == s0[next].(prev := right, gen := s1[next].gen)
      && forall b :: b in s0 && b != next ==> s1[b] == s0[b])
    requires st.Keys == s1.Keys + {right} && (forall b :: b in s1 && b != leaf ==> st[b] == s1[b])
    requires st[right].level == 0 && st[right].items == s0[leaf].items[mid..] && st[right].gen > gen && st[right].prev == leaf
    requires st[leaf].level == 0 && st[leaf].items == s0[leaf].items[..mid] && st[leaf].gen > gen && (st[leaf].prev == 0 || st[leaf].prev in s0)
    ensures LeafWritten(s0, st, leaf, mid, right, gen) && (LinksOk(s0) ==> LinksOk(st))
  {
  }

  lemma HistoryLinks<V>(st: Store<V>, barrier: nat, cow: bool, clean: bool, pasts: seq<Past<V>>)
    requires HistoryOk(st, barrier, cow, clean, pasts) && clean && cow
    ensures FrozenLinks(st, barrier)
  {
  }

  lemma LeafStored<V>(st: Store<V>, ids: seq<nat>, v: View<V>, path: seq<nat>, at: seq<nat>, leaf: nat, i: nat)
    requires |path| == |at| && i < |v.n| == |v.g| == |ids| && OnPath(path + [leaf], at + [i], ids, v) && v.n[i].Leaf?
    requires Rep(st, ids, v)
    ensures leaf in st && leaf != 0 && ids[i] == leaf && st[leaf].level == 0 && st[leaf].items == v.n[i].entries && v.g[i].level == 0
  {
    assert (at + [i])[|at|] == i && (path + [leaf])[|at|] == leaf;
    assert NodeAt(st, ids, v, i);
  }

  lemma SizeOfNode<V>(v: View<V>, maxLeaf: nat, maxInner: nat, i: nat)
    requires SizesBut(v, maxLeaf, maxInner, {}) && i < |v.n|
    ensures SizeWithin(v.n[i], maxLeaf, maxInner)
  {
  }

  lemma LeafCut<V>(c: Cutting<V>, s0: Store<V>, st: Store<V>, leaf: nat, right: nat, gen: nat, maxLeaf: nat, maxInner: nat, key: Key)
    requires c.st == s0 && c.id < |c.v.n| == |c.v.g| == |c.ids| && c.ids[c.id] == leaf && c.v.n[c.id].Leaf? && leaf in s0 && s0[leaf].items == c.v.n[c.id].entries
    requires |s0[leaf].items| >= 2 && |s0[leaf].items| < maxLeaf && c.mid == |s0[leaf].items| / 2 && c.b == s0[leaf].items[c.mid].key && In(c.v.g[c.id], key)
    requires LeafWritten(s0, st, leaf, c.mid, right, gen) && c.v.root < |c.ids|
    requires SizesBut(c.v, maxLeaf, maxInner, {}) && Inv(c.v) && Plain(c.v) && Rep(s0, c.ids, c.v)
    ensures BoundAt(c.v.n[c.id], c.mid, c.b) && HalvesWritten(c.st, c.ids, c.id, c.mid, right, st)
    ensures CutFits(c, maxLeaf, maxInner) && SmallAfter(c, key, |s0[leaf].items| - 1)
    ensures CutOk(c)
  {
    hide Inv, Plain, Matches;
    forall k | 0 <= k < |c.ids| ensures c.ids[k] in s0 && c.ids[k] != right { RepNonZero(s0, c.ids, c.v, k); }
    forall k | 0 <= k < |c.ids| && k != c.id ensures SameAt(s0, st, c.ids[k], c.ids[k]) {
      assert c.ids[k] != leaf;
    }
  }

  /** Only private nodes and new ones were written. */
  lemma LeafKept<V>(s0: Store<V>, st: Store<V>, leaf: nat, path: seq<nat>, mid: nat, right: nat, barrier: nat, gen: nat)
    requires LeafWritten(s0, st, leaf, mid, right, gen) && Private(s0, path + [leaf], barrier) && FrozenLinks(s0, barrier) && leaf != 0 && barrier <= gen
    ensures FrozenKept(s0, st, barrier)
  {
    assert (path + [leaf])[|path|] == leaf;
  }

  lemma LeafPrivate<V>(s0: Store<V>, st: Store<V>, leaf: nat, path: seq<nat>, mid: nat, right: nat, barrier: nat, gen: nat)
    requires LeafWritten(s0, st, leaf, mid, right, gen) && Private(s0, path + [leaf], barrier) && barrier <= gen
    ensures Private(st, path + [leaf, right], barrier)
  {
    forall k | 0 <= k < |path| ensures path[k] in st && st[path[k]].gen > barrier { assert (path + [leaf])[k] == path[k]; }
  }

  lemma LinkedParts<V>(st: Store<V>, ids: seq<nat>, v: View<V>, c: Cutting<V>, maxLeaf: nat, maxInner: nat, key: Key, bound: nat)
    requires LinkedTo(st, ids, v, c, maxLeaf, maxInner, key, bound)
    ensures Inv(v) && Plain(v) && Rep(st, ids, v) && v.root < |ids| && c.v.root < |c.ids| && ids[v.root] == c.ids[c.v.root]
    ensures v.model == c.v.model && SizesBut(v, maxLeaf, maxInner, {}) && SmallAt(v, key, bound) && (Anchored(c.v) ==> Anchored(v))
  {
  }

  lemma HistoryLess<V>(st: Store<V>, barrier: nat, cow: bool, clean: bool, clean': bool, pasts: seq<Past<V>>)
    requires HistoryOk(st, barrier, cow, clean, pasts) && (clean' ==> clean)
    ensures HistoryOk(st, barrier, cow, clean', pasts)
  {
  }
}
