/** The on-disk B+ tree: nodes read, edited and written back by block number, splits that
    keep the root where it is, and path copying under a snapshot barrier. */
module DiskTree {
  import opened Options
  import opened BeTreeModel
  import opened BeTreeMessages
  import opened BeTreeContent
  import opened BeTreeSplit
  import opened BeTreeState
  import opened BeTreeSteps
  import opened BeTreeCut
  import opened BT = BeTree
  import opened DiskModel
  import opened DiskSplit
  import opened DiskScan
  import opened DiskHistory
  import opened DiskPending
  import opened RootCells

  ghost predicate LeafIs<V>(ids: seq<nat>, v: View<V>, i: nat, leaf: nat, rightmost: bool, least: Key, greatest: Key, count: nat)
    requires i < |ids| == |v.n| == |v.g|
  {
    && ids[i] == leaf && v.n[i].Leaf? && |v.n[i].entries| == count > 0 && (rightmost ==> v.g[i].hi.None?)
    && v.n[i].entries[0].key == least && v.n[i].entries[count - 1].key == greatest && In(v.g[i], least) && In(v.g[i], greatest)
  }

  /** A leaf changed by one operation. */
  ghost function LeafPut<V>(v: View<V>, i: nat, key: Key, op: Op<V>, items: seq<Entry<V>>): View<V>
    requires i < |v.n|
  {
    v.(n := v.n[i := Leaf(v.n[i].parent, items)], model := Put(v.model, key, op))
  }

  /** One leaf changed by one operation, nothing else. */
  ghost predicate PutStep<V>(v: View<V>, v': View<V>, key: Key, op: Op<V>)
  {
    exists i :: PutAt(v, v', i, key, op)
  }

  ghost predicate PutAt<V>(v: View<V>, v': View<V>, i: nat, key: Key, op: Op<V>)
  {
    && i < |v.n| == |v.g| && v.n[i].Leaf? && In(v.g[i], key) && i < |v'.n| && v'.n[i].Leaf?
    && Applied(v.n[i].entries, key, op, v'.n[i].entries) && v' == LeafPut(v, i, key, op, v'.n[i].entries)
  }

  ghost predicate LeafRoot<V>(v: View<V>)
  {
    v.root < |v.n| == |v.g| && v.n[v.root].Leaf? && |v.n[v.root].entries| >= 2
  }

  /** A root that is a leaf, divided at its middle entry. */
  ghost function RootHalved<V>(v: View<V>): View<V>
    requires LeafRoot(v)
  {
    var es := v.n[v.root].entries;
    RootView(v, es[|es| / 2].key, |es| / 2)
  }

  /** What an insertion does to the tree: in a leaf with room it puts the entry; a full root leaf it divides first. */
  ghost predicate InsertStep<V>(v: View<V>, v': View<V>, key: Key, value: V, maxLeaf: nat)
  {
    && (maxLeaf >= 2 && SmallAt(v, key, maxLeaf - 2) ==> PutStep(v, v', key, Upsert(value)))
    && (FullRoot(v, maxLeaf) && LeafRoot(v) ==> PutStep(RootHalved(v), v', key, Upsert(value)))
  }

  ghost predicate FullRoot<V>(v: View<V>, maxLeaf: nat)
  {
    v.root < |v.n| && v.n[v.root].Leaf? && |v.n[v.root].entries| >= maxLeaf - 1
  }

  lemma WasPut<V>(v: View<V>, i: nat, key: Key, op: Op<V>, items: seq<Entry<V>>)
    requires i < |v.n| == |v.g| && v.n[i].Leaf? && In(v.g[i], key) && Applied(v.n[i].entries, key, op, items)
    ensures PutStep(v, LeafPut(v, i, key, op, items), key, op)
  {
    hide Applied, In;
    assert PutAt(v, LeafPut(v, i, key, op, items), i, key, op);
  }

  lemma StepDirect<V>(v: View<V>, v': View<V>, key: Key, value: V, maxLeaf: nat)
    requires PutStep(v, v', key, Upsert(value)) && !FullRoot(v, maxLeaf)
    ensures InsertStep(v, v', key, value, maxLeaf)
  {
    hide PutStep, FullRoot;
  }

  /** The leaf of the key was full and now has room; a root that was that leaf was divided. */
  ghost predicate RoomMade<V>(v: View<V>, w: View<V>, key: Key, maxLeaf: nat)
  {
    && maxLeaf >= 2 && !SmallAt(v, key, maxLeaf - 2) && SmallAt(w, key, maxLeaf - 2)
    && (FullRoot(v, maxLeaf) && LeafRoot(v) ==> w == RootHalved(v))
  }

  lemma RoomFacts<V>(v: View<V>, w: View<V>, key: Key, maxLeaf: nat, maxInner: nat)
    requires RoomMade(v, w, key, maxLeaf)
    ensures maxLeaf >= 2 && SmallAt(w, key, maxLeaf - 2) && !CrowdedAt(w, key, maxLeaf, maxInner)
  {
    hide SmallAt, CrowdedAt;
    NotCrowded(w, key, maxLeaf, maxInner);
  }

  lemma StepSplit<V>(v: View<V>, w: View<V>, v': View<V>, key: Key, value: V, maxLeaf: nat)
    requires RoomMade(v, w, key, maxLeaf) && InsertStep(w, v', key, value, maxLeaf)
    ensures InsertStep(v, v', key, value, maxLeaf)
  {
    hide PutStep, FullRoot, SmallAt;
  }

  lemma LeafPutOk<V>(v: View<V>, i: nat, key: Key, op: Op<V>, items: seq<Entry<V>>)
    requires i < |v.n| == |v.g| && v.n[i].Leaf? && In(v.g[i], key) && Applied(v.n[i].entries, key, op, items) && Plain(v)
    requires Inv(v)
    ensures Inv(LeafPut(v, i, key, op, items)) && Plain(LeafPut(v, i, key, op, items))
  {
    hide MsgInv, ContentInv, Applied, ChildOk, NodeOk, Put;
    var v' := LeafPut(v, i, key, op, items);
    SameShapeOk(v.n, v.g, v.root, v'.n);
    assert QueuesOf(v'.n, v'.hand) == QueuesOf(v.n, v.hand);
    LeavesAtZero(v.n, v.g, v.root);
    ApplyNowKeepsContent(v.n, v.g, v.model, i, key, op, items);
  }

  lemma RepLeafPut<V>(st: Store<V>, ids: seq<nat>, v: View<V>, i: nat, key: Key, op: Op<V>, items: seq<Entry<V>>, st': Store<V>)
    requires Rep(st, ids, v) && i < |ids| == |v.n| == |v.g| && v.n[i].Leaf?
    requires ids[i] in st' && st'[ids[i]].level == 0 && st'[ids[i]].items == items && forall b :: b in st && b != ids[i] ==> b in st' && st'[b] == st[b]
    ensures Rep(st', ids, LeafPut(v, i, key, op, items))
  {
    var v' := LeafPut(v, i, key, op, items);
    forall k | 0 <= k < |ids| ensures NodeAt(st', ids, v', k) {
      assert NodeAt(st, ids, v, k);
    }
  }

  /** A recorded tree whose leaf is written in place reads the changed map from then on. */
  lemma PastOverwritten<V>(st: Store<V>, p: Past<V>, i: nat, key: Key, value: V, items: seq<Entry<V>>, st': Store<V>)
    requires Inv(p.view) && Plain(p.view) && Rep(st, p.ids, p.view) && i < |p.ids| == |p.view.n| == |p.view.g| && p.view.n[i].Leaf?
    requires In(p.view.g[i], key) && Applied(p.view.n[i].entries, key, Upsert(value), items)
    requires p.ids[i] in st' && st'[p.ids[i]].level == 0 && st'[p.ids[i]].items == items
    requires forall b :: b in st && b != p.ids[i] ==> b in st' && st'[b] == st[b]
    ensures var v := LeafPut(p.view, i, key, Upsert(value), items);
      Inv(v) && Plain(v) && Rep(st', p.ids, v) && v.root == p.view.root && Get(v.model, key) == Some(value)
  {
    hide Inv, Plain, Rep, Applied, In;
    LeafPutOk(p.view, i, key, Upsert(value), items);
    RepLeafPut(st, p.ids, p.view, i, key, Upsert(value), items, st');
  }

  lemma SizesPut<V>(v: View<V>, maxLeaf: nat, maxInner: nat, i: nat, key: Key, op: Op<V>, items: seq<Entry<V>>)
    requires SizesBut(v, maxLeaf, maxInner, {}) && i < |v.n| && |items| < maxLeaf
    ensures SizesBut(LeafPut(v, i, key, op, items), maxLeaf, maxInner, {})
  {
    var v' := LeafPut(v, i, key, op, items);
    forall k | 0 <= k < |v'.n| ensures SizeWithin(v'.n[k], maxLeaf, maxInner) { assert k != i ==> SizeWithin(v.n[k], maxLeaf, maxInner); }
  }

  lemma PathLeaf<V>(st: Store<V>, ids: seq<nat>, v: View<V>, path: seq<nat>, at: seq<nat>)
    requires Rep(st, ids, v) && OnPath(path, at, ids, v) && |path| == |at| > 0 && at[|at| - 1] < |v.n| && v.n[at[|at| - 1]].Leaf?
    ensures var leaf := path[|path| - 1]; leaf in st && ids[at[|at| - 1]] == leaf && st[leaf].level == 0 && st[leaf].items == v.n[at[|at| - 1]].entries
  {
    assert NodeAt(st, ids, v, at[|at| - 1]);
  }

  lemma PathPieces(path: seq<nat>, at: seq<nat>)
    requires |path| == |at| > 0
    ensures path[..|path| - 1] + [path[|path| - 1]] == path && at[..|at| - 1] + [at[|at| - 1]] == at
  {
  }

  lemma SmallerTries<V>(v: View<V>, v': View<V>, key: Key, i: nat, tries: nat, count: nat)
    requires SmallAt(v, key, tries) && i < |v.n| == |v.g| && v.n[i].Leaf? && In(v.g[i], key) && |v.n[i].entries| == count > 0
    requires SmallAt(v', key, count - 1)
    ensures tries > 0 && SmallAt(v', key, tries - 1)
  {
  }

  lemma PutAnchored<V>(v: View<V>, i: nat, key: Key, value: V, items: seq<Entry<V>>)
    requires i < |v.n| == |v.g| && v.n[i].Leaf? && Applied(v.n[i].entries, key, Upsert(value), items) && Anchored(v)
    ensures Anchored(LeafPut(v, i, key, Upsert(value), items))
  {
    var v' := LeafPut(v, i, key, Upsert(value), items);
    forall k | 0 <= k < |v'.n| && v'.n[k].Leaf? && v'.g[k].lo.Some? ensures HasKey(v'.n[k].entries, v'.g[k].lo.value) {
      assert HasKey(v.n[k].entries, v.g[k].lo.value);
      if k == i { StillHasKey(v.n[i].entries, key, value, items, v.g[k].lo.value); }
    }
  }

  lemma StillHasKey<V>(es: seq<Entry<V>>, key: Key, value: V, items: seq<Entry<V>>, k: Key)
    requires HasKey(es, k) && Applied(es, key, Upsert(value), items)
    ensures HasKey(items, k)
  {
    var x :| 0 <= x < |es| && es[x].key == k;
    assert es[x] in es;
    var e := if k == key then Entry(key, value) else es[x];
    assert e in items;
    var y :| 0 <= y < |items| && items[y] == e;
  }

  /** One leaf covers a key, so that leaf decides whether the key is crowded. */
  lemma CrowdedHere<V>(v: View<V>, key: Key, maxLeaf: nat, maxInner: nat, i: nat)
    requires Inv(v) && i < |v.n| == |v.g| && v.n[i].Leaf? && In(v.g[i], key) && |v.n[i].entries| >= maxLeaf - 1
    ensures CrowdedAt(v, key, maxLeaf, maxInner) <==> Crowded(v, i, maxInner)
  {
    hide MsgInv, ContentInv, Crowded;
    forall k | 0 <= k < |v.n| && v.n[k].Leaf? && In(v.g[k], key) ensures k == i { OneLeaf(v, key, i, k); }
  }

  lemma OneLeaf<V>(v: View<V>, key: Key, i: nat, k: nat)
    requires Inv(v) && i < |v.n| == |v.g| && v.n[i].Leaf? && In(v.g[i], key) && k < |v.n| && v.n[k].Leaf? && In(v.g[k], key)
    ensures i == k
  {
    hide MsgInv, ContentInv;
    LevelZero(v, k);
    LevelZero(v, i);
    OneNodePerKey(v.g, k, i, key);
  }

  /** The cut divided the root, and v' is the tree with the new root above it. */
  ghost predicate CutAtRoot<V>(c: Cutting<V>, v': View<V>)
  {
    c.id == c.v.root < |c.v.n| == |c.v.g| && BoundAt(c.v.n[c.id], c.mid, c.b) && v' == RootView(c.v, c.b, c.mid)
  }

  lemma HalfBound<V>(c: Cutting<V>, st: Store<V>, path: seq<nat>, left: nat, b: Key, right: nat, at: seq<nat>)
    requires HalfDone(c, st, path, left, b, right, at)
    ensures c.b == b
  {
  }

  lemma CutWasRoot<V>(c: Cutting<V>, v': View<V>, es: seq<Entry<V>>)
    requires CutAtRoot(c, v') && c.v.n[c.id].Leaf? && c.v.n[c.id].entries == es && c.mid == |es| / 2
    ensures LeafRoot(c.v) && v' == RootHalved(c.v)
  {
  }

  /** A leaf that is the root has nothing above it. */
  lemma LeafRootPath<V>(path: seq<nat>, at: seq<nat>, ids: seq<nat>, v: View<V>, key: Key)
    requires Inv(v) && OnPath(path, at, ids, v) && |path| == |at| > 0 && v.root < |v.n| && v.n[v.root].Leaf?
    requires v.n[at[|at| - 1]].Leaf? && In(v.g[at[|at| - 1]], key)
    ensures |path| == 1
  {
    hide MsgInv, ContentInv;
    var i := at[|at| - 1];
    InvStruct(v);
    RootCovers(v.n, v.g, v.root, key);
    OneLeaf(v, key, i, v.root);
    if |at| > 1 { PathLevels(path, at, ids, v, 0, |at| - 1); }
  }

  lemma RootIsPath<V>(path: seq<nat>, at: seq<nat>, ids: seq<nat>, v: View<V>, key: Key, maxLeaf: nat)
    requires Inv(v) && OnPath(path, at, ids, v) && |path| == |at| > 0 && FullRoot(v, maxLeaf)
    requires v.n[at[|at| - 1]].Leaf? && In(v.g[at[|at| - 1]], key)
    ensures path[..|path| - 1] == []
  {
    hide Inv, OnPath, In;
    LeafRootPath(path, at, ids, v, key);
  }

  lemma FullIsNotSmall<V>(v: View<V>, key: Key, i: nat, bound: nat)
    requires i < |v.n| == |v.g| && v.n[i].Leaf? && In(v.g[i], key) && |v.n[i].entries| > bound
    ensures !SmallAt(v, key, bound)
  {
  }

  /** If the leaf of a key has room, a root that is a leaf has. */
  lemma RoomInRoot<V>(v: View<V>, key: Key, i: nat, maxLeaf: nat)
    requires Inv(v) && i < |v.n| == |v.g| && v.n[i].Leaf? && In(v.g[i], key) && |v.n[i].entries| < maxLeaf - 1
    ensures !FullRoot(v, maxLeaf)
  {
    hide MsgInv, ContentInv;
    if v.root < |v.n| && v.n[v.root].Leaf? {
      InvStruct(v);
      RootCovers(v.n, v.g, v.root, key);
      OneLeaf(v, key, i, v.root);
    }
  }

  lemma FloorKnown<V>(v: View<V>, key: Key, r: Option<Entry<V>>)
    requires Inv(v) && Plain(v) && LeafAnswers(v, key, r)
    ensures Floor(v.model, key, r) <==> !Stranded(v, key)
    ensures Anchored(v) ==> !Stranded(v, key)
  {
    hide Inv, Plain, Floor, Anchored, StrandedAt;
    var i :| 0 <= i < |v.n| && v.n[i].Leaf? && In(v.g[i], key) && r == LeafFloor(v.n[i].entries, key);
    FloorExact(v, i, key);
    forall k | 0 <= k < |v.n| && v.n[k].Leaf? && In(v.g[k], key) ensures k == i { OneLeaf(v, key, i, k); }
    if Anchored(v) { AnchoredFloor(v, i, key); }
  }

  lemma RoomHere<V>(v: View<V>, key: Key, maxLeaf: nat, maxInner: nat, i: nat)
    requires Inv(v) && i < |v.n| == |v.g| && v.n[i].Leaf? && In(v.g[i], key) && |v.n[i].entries| < maxLeaf - 1
    ensures !CrowdedAt(v, key, maxLeaf, maxInner)
  {
    hide Inv, Crowded;
    forall k | 0 <= k < |v.n| && v.n[k].Leaf? && In(v.g[k], key) ensures k == i { OneLeaf(v, key, i, k); }
  }

  lemma NotCrowded<V>(v: View<V>, key: Key, maxLeaf: nat, maxInner: nat)
    requires maxLeaf >= 2 && SmallAt(v, key, maxLeaf - 2)
    ensures !CrowdedAt(v, key, maxLeaf, maxInner)
  {
  }

  lemma ItLanded<V>(ids: seq<nat>, v: View<V>, i: nat, leaf: nat, rightmost: bool, least: Key, greatest: Key, count: nat)
    requires i < |ids| == |v.n| == |v.g| && ids[i] == leaf && v.n[i].Leaf? && |v.n[i].entries| == count > 0 && (rightmost ==> v.g[i].hi.None?)
    requires v.n[i].entries[0].key == least && v.n[i].entries[count - 1].key == greatest && Inv(v)
    ensures LeafIs(ids, v, i, leaf, rightmost, least, greatest, count)
  {
    hide MsgInv, StructOk;
    assert LeafOk(v.g[i], v.n[i].entries);
    assert v.n[i].entries[0] in v.n[i].entries && v.n[i].entries[count - 1] in v.n[i].entries;
  }

  lemma PrivateLeaf<V>(st: Store<V>, path: seq<nat>, barrier: nat)
    requires Private(st, path, barrier) && path != []
    ensures path[|path| - 1] in st && st[path[|path| - 1]].gen > barrier
  {
  }

  lemma PastRaised<V>(st: Store<V>, p: Past<V>, barrier: nat, barrier': nat)
    requires PastOk(st, p, barrier) && barrier <= barrier'
    ensures PastOk(st, p, barrier')
  {
    hide Inv, Plain, Rep;
  }

  /** At a barrier as high as the stamp counter, the current tree is a frozen one. */
  lemma NowPast<V>(st: Store<V>, ids: seq<nat>, v: View<V>, root: nat, gen: nat, nextBlock: nat)
    requires HeadersOk(st, gen, nextBlock) && Inv(v) && Plain(v) && Rep(st, ids, v) && v.root < |ids| && ids[v.root] == root
    ensures PastOk(st, Past(root, ids, v), gen)
  {
    hide Inv, Plain;
    forall i | 0 <= i < |ids| ensures ids[i] in st { assert NodeAt(st, ids, v, i); }
  }

  /** Raising the barrier to the stamp counter adds the current tree to the recorded pasts. */
  lemma SnapshotHistory<V>(st: Store<V>, barrier: nat, cow: bool, clean: bool, pasts: seq<Past<V>>, frozenType: bool, now: Past<V>, gen: nat, nextBlock: nat)
    requires HistoryOk(st, barrier, cow, clean, pasts) && barrier <= gen && HeadersOk(st, gen, nextBlock) && LinksOk(st)
    requires cow ==> frozenType
    requires Inv(now.view) && Plain(now.view) && Rep(st, now.ids, now.view) && now.view.root < |now.ids| && now.ids[now.view.root] == now.root
    ensures HistoryOk(st, gen, frozenType, true, (if clean then pasts else []) + (if frozenType then [now] else []))
  {
    hide Inv, Plain, Rep, PastOk;
    var pasts' := (if clean then pasts else []) + (if frozenType then [now] else []);
    forall x | 0 <= x < |pasts'| ensures PastOk(st, pasts'[x], gen) {
      if clean && x < |pasts| {
        PastRaised(st, pasts[x], barrier, gen);
      } else {
        NowPast(st, now.ids, now.view, now.root, gen, nextBlock);
      }
    }
  }

  lemma SnapshotShape<V>(sh: Shape, ids: seq<nat>, g: Map, st: Store<V>, cow: bool, barrier: nat, cow': bool, barrier': nat)
    requires ShapeFits(sh, ids, g, st, cow, barrier) && (cow ==> cow') && barrier <= barrier'
    ensures ShapeFits(sh, ids, g, st, cow', barrier')
  {
    forall i | 0 <= i < |ids| ensures LeftFrozen(sh.blocks[i], ids[i], st, cow', barrier') { assert LeftFrozen(sh.blocks[i], ids[i], st, cow, barrier); }
  }

  /** An empty tree: one leaf. */
  ghost function NewView<V>(): View<V>
  {
    View([Leaf(None, [])], 0, [Region(0, None, None)], [[]], {}, map[])
  }

  lemma EmptyTree<V>(home: nat, nextBlock: nat, gen: nat, v: View<V>, maxLeaf: nat, maxInner: nat)
    requires v == NewView() && 0 < home < nextBlock && maxLeaf > 0
    ensures Inv(v) && Plain(v) && Rep(map[home := DNode(0, 0, [], [], 0, 0, 0, 0)], [home], v) && SizesBut(v, maxLeaf, maxInner, {}) && Anchored(v)
    ensures var st: Store<V> := map[home := DNode(0, 0, [], [], 0, 0, 0, 0)]; HeadersOk(st, gen, nextBlock) && LinksOk(st) && forall cow :: !cow ==> HistoryOk(st, 0, cow, true, [])
  {
    hide Inv, HandsOk, Limits, Buffered, Stored;
    EmptyTreeOk(v, Config(2, 1, 1));
  }

  /** Binary search for the place of a separator. */
  method SepPlace(seps: seq<Sep>, b: Key) returns (pos: nat)
    requires forall x, y :: 0 <= x < y < |seps| ==> seps[x].key < seps[y].key
    requires forall x :: 0 <= x < |seps| ==> seps[x].key != b
    ensures pos <= |seps|
    ensures forall x :: 0 <= x < pos ==> seps[x].key < b
    ensures forall x :: pos <= x < |seps| ==> b <= seps[x].key
  {
    var lo, hi := 0, |seps|;
    while lo < hi
      invariant 0 <= lo <= hi <= |seps|
      invariant forall x :: 0 <= x < lo ==> seps[x].key < b
      invariant forall x :: hi <= x < |seps| ==> b <= seps[x].key
    {
      var mid := (lo + hi) / 2;
      if seps[mid].key < b {
        lo := mid + 1;
      } else {
        hi := mid;
      }
    }
    pos := lo;
  }

  /** The separators of the parent are in order, and the new bound is not among them. */
  lemma SepsReady<V>(v: View<V>, ids: seq<nat>, id: nat, p: nat, j: nat, b: Key, x: DNode<V>)
    requires StructOk(v.n, v.g, v.root) && id < |v.n| && p < |v.n| && v.n[p].Internal? && j < |v.n[p].children| && v.n[p].children[j].id == id
    requires Cuts(v.g[id], b) && MatchesKids(x, v.n[p].children, ids)
    ensures forall y, z :: 0 <= y < z < |x.seps| ==> x.seps[y].key < x.seps[z].key
    ensures forall y :: 0 <= y < |x.seps| ==> x.seps[y].key != b
  {
    var cs := v.n[p].children;
    assert Kids(v.n[p]) == cs;
    forall y, z | 0 <= y < z < |x.seps| ensures x.seps[y].key < x.seps[z].key {
      BoundsIncrease(v.n, v.g, v.root, p, y + 1, z + 1);
      assert ChildOk(v.n, v.g, p, y + 1);
    }
    assert ChildOk(v.n, v.g, p, j);
    forall y | 0 <= y < |x.seps| ensures x.seps[y].key != b {
      assert x.seps[y] == Sep(BoundOf(cs[y + 1]), ids[cs[y + 1].id]);
      assert ChildOk(v.n, v.g, p, y + 1);
      if y + 1 < j {
        BoundsIncrease(v.n, v.g, v.root, p, y + 1, j);
      } else if y + 1 > j {
        assert ChildOk(v.n, v.g, p, j + 1);
        if y > j { BoundsIncrease(v.n, v.g, v.root, p, j + 1, y + 1); }
      }
    }
  }

  class DiskTree<V> {
    var st: Store<V>
    /** Stamp counter, structural epoch, snapshot barrier. */
    var gen: nat
    var epoch: nat
    var barrier: nat
    /** Where path copying has moved the root to, if it has. It is this tree's own cell: a tree of a
        frozen type is one that finds itself, RootCells.FindsItselfExactly. */
    var rootCell: Option<nat>
    var nextBlock: nat
    const nodeType: nat
    const frozenType: bool := IsFrozen(nodeType)
    const maxLeaf: nat
    const maxInner: nat
    const home: nat

    ghost var ids: seq<nat>
    ghost var view: View<V>
    ghost var shapes: seq<Shape>
    /** No inner node has been split under the barrier since the first recorded past. */
    ghost var clean: bool
    ghost var pasts: seq<Past<V>>

    predicate Cow()
      reads this
    {
      barrier > 0 && frozenType
    }

    function RootNow(): nat
      reads this
    {
      if rootCell.Some? then rootCell.value else home
    }

    ghost predicate Stored()
      reads this
    {
      HeadersOk(st, gen, nextBlock) && LinksOk(st) && barrier <= gen && 0 < nextBlock && maxLeaf >= 3 && maxInner >= 3 && HistoryOk(st, barrier, Cow(), clean, pasts)
    }

    ghost predicate Valid()
      reads this
    {
      && Stored() && Inv(view) && Plain(view) && Rep(st, ids, view) && view.root < |ids| && ids[view.root] == RootNow()
      && SizesBut(view, maxLeaf, maxInner, {})
      && |shapes| == epoch + 1 && ShapeFits(shapes[epoch], ids, view.g, st, Cow(), barrier)
    }

    lemma Unpack()
      requires Valid()
      ensures HeadersOk(st, gen, nextBlock) && LinksOk(st) && barrier <= gen && 0 < nextBlock && maxLeaf >= 3 && maxInner >= 3
      ensures HistoryOk(st, barrier, Cow(), clean, pasts) && view.root < |ids| && ids[view.root] == RootNow()
      ensures Inv(view) && Plain(view) && Rep(st, ids, view) && SizesBut(view, maxLeaf, maxInner, {}) && |shapes| == epoch + 1
      ensures ShapeFits(shapes[epoch], ids, view.g, st, Cow(), barrier)
    {
      hide Inv, Plain, Rep, HeadersOk, LinksOk, HistoryOk, SizesBut, ShapeFits;
    }

    lemma Pack()
      requires HeadersOk(st, gen, nextBlock) && LinksOk(st) && barrier <= gen && 0 < nextBlock && maxLeaf >= 3 && maxInner >= 3
      requires HistoryOk(st, barrier, Cow(), clean, pasts) && view.root < |ids| && ids[view.root] == RootNow()
      requires Inv(view) && Plain(view) && Rep(st, ids, view) && SizesBut(view, maxLeaf, maxInner, {})
      requires |shapes| == epoch + 1 && ShapeFits(shapes[epoch], ids, view.g, st, Cow(), barrier)
      ensures Valid()
    {
      hide Inv, Plain, Rep, HeadersOk, LinksOk, HistoryOk, SizesBut, ShapeFits;
    }

    /** An empty tree: one leaf, in the given block, with no stamp. */
    constructor (home: nat, firstFree: nat, gen: nat, nodeType: nat, maxLeaf: nat, maxInner: nat)
      requires 0 < home < firstFree && maxLeaf >= 3 && maxInner >= 3
      ensures Valid() && view.model == map[] && RootNow() == home && this.home == home && this.gen == gen && barrier == 0
      ensures this.nodeType == nodeType && this.maxLeaf == maxLeaf && this.maxInner == maxInner && clean && pasts == [] && Anchored(view)
      ensures view == NewView()
    {
      this.home, this.nodeType, this.maxLeaf, this.maxInner := home, nodeType, maxLeaf, maxInner;
      st := map[home := DNode(0, 0, [], [], 0, 0, 0, 0)];
      this.gen, epoch, barrier, rootCell, nextBlock := gen, 0, 0, None, firstFree;
      ids, view := [home], NewView();
      shapes, clean, pasts := [FreshShape([home], [Region(0, None, None)])], true, [];
      new;
      hide *;
      EmptyTree(this.home, nextBlock, this.gen, view, this.maxLeaf, this.maxInner);
      FreshFits(ids, view.g, st, Cow(), barrier);
      Pack();
    }

    /** The cut has been carried out, all the way up; the root is where it was. */
    ghost predicate Linked(c: Cutting<V>, key: Key, bound: nat)
      reads this
    {
      LinkedTo(st, ids, view, c, maxLeaf, maxInner, key, bound)
    }

    /** The key went into this leaf, whose least and greatest key and number of items are given. */
    ghost predicate LandedIn(leaf: nat, rightmost: bool, least: Key, greatest: Key, count: nat)
      reads this
    {
      |ids| == |view.n| == |view.g| && exists i :: 0 <= i < |ids| && LeafIs(ids, view, i, leaf, rightmost, least, greatest, count)
    }

    /** A fresh block number. */
    method Allocate() returns (b: nat)
      requires HeadersOk(st, gen, nextBlock) && 0 < nextBlock
      modifies `nextBlock
      ensures b == old(nextBlock) && nextBlock == b + 1 && b !in st && b != 0 && HeadersOk(st, gen, nextBlock)
    {
      b := nextBlock;
      nextBlock := nextBlock + 1;
    }

    /** Writes a node with a fresh stamp. */
    method WriteNode(b: nat, x: DNode<V>)
      requires HeadersOk(st, gen, nextBlock) && 0 < b < nextBlock && x.prev < nextBlock
      modifies `st, `gen
      ensures gen == old(gen) + 1 && st == old(st)[b := x.(gen := gen)] && HeadersOk(st, gen, nextBlock)
    {
      gen := gen + 1;
      st := st[b := x.(gen := gen)];
    }

    // -------------------------------------------------------------------
    // Reading
    // -------------------------------------------------------------------

    method Route(x: DNode<V>, key: Key) returns (next: nat)
      ensures next == RouteSeps(0, x.leftmost, x.seps, key)
    {
      next := x.leftmost;
      var j := 0;
      while j < |x.seps|
        invariant 0 <= j <= |x.seps| && RouteSeps(j, next, x.seps, key) == RouteSeps(0, x.leftmost, x.seps, key)
      {
        if key >= x.seps[j].key {
          next := x.seps[j].ptr;
        } else {
          break;
        }
        j := j + 1;
      }
    }

    /** Walks down to the leaf of a key under any root the store holds. */
    method FindLeaf(root: nat, key: Key, ghost ids': seq<nat>, ghost v: View<V>) returns (leaf: nat, ghost i: nat)
      requires |ids'| == |v.n| == |v.g| && v.root < |ids'| && ids'[v.root] == root
      requires Inv(v) && Rep(st, ids', v)
      ensures i < |ids'| && ids'[i] == leaf && leaf in st && v.n[i].Leaf? && In(v.g[i], key) && st[leaf].items == v.n[i].entries
    {
      hide Inv, In, RouteSeps;
      leaf := root;
      i := v.root;
      InvStruct(v);
      RootCovers(v.n, v.g, v.root, key);
      assert NodeAt(st, ids', v, i);
      LevelZero(v, i);
      while st[leaf].level > 0
        invariant i < |ids'| && ids'[i] == leaf && leaf in st && In(v.g[i], key) && NodeAt(st, ids', v, i)
        invariant v.n[i].Leaf? <==> v.g[i].level == 0
        decreases v.g[i].level
      {
        ghost var c := RouteFinds(st, ids', v, i, key);
        leaf := Route(st[leaf], key);
        i := c;
        assert NodeAt(st, ids', v, i);
        LevelZero(v, i);
      }
    }

    /** Walks down to the leaf of a key, keeping the path and noting whether it was always the last child. */
    method Descend(key: Key) returns (path: seq<nat>, rightmost: bool, ghost at: seq<nat>)
      requires Valid()
      ensures OnPath(path, at, ids, view) && |path| == |at| > 0 && path[|path| - 1] in st && at[|at| - 1] < |view.n| == |view.g|
      ensures var i := at[|at| - 1]; view.n[i].Leaf? && In(view.g[i], key) && (rightmost <==> view.g[i].hi.None?)
    {
      hide Inv, Plain, Stored, SizesBut, ShapeFits, In, RouteSeps, OnPath;
      RepSizes(st, ids, view);
      InvStruct(view);
      RootCovers(view.n, view.g, view.root, key);
      assert NodeAt(st, ids, view, view.root);
      LevelZero(view, view.root);
      path := [RootNow()];
      at := [view.root];
      rightmost := true;
      OneStep(ids, view);
      assert view.g[view.root].hi.None?;
      var cur := RootNow();
      ghost var i: nat := view.root;
      while st[cur].level > 0
        invariant i < |ids| && ids[i] == cur && cur in st && In(view.g[i], key) && NodeAt(st, ids, view, i)
        invariant OnPath(path, at, ids, view) && |path| == |at| > 0 && path[|path| - 1] == cur && at[|at| - 1] == i
        invariant view.n[i].Leaf? <==> view.g[i].level == 0
        invariant rightmost <==> view.g[i].hi.None?
        decreases view.g[i].level
      {
        ghost var c := RouteFinds(st, ids, view, i, key);
        var count := |st[cur].seps|;
        if count > 0 && key < st[cur].seps[count - 1].key {
          rightmost := false;
        }
        cur := Route(st[cur], key);
        PathSnoc(path, at, ids, view, c);
        path := path + [cur];
        at := at + [c];
        i := c;
        assert NodeAt(st, ids, view, i);
        LevelZero(view, i);
      }
    }

    /** Copies every frozen node of a path to a fresh block and repoints its parent. */
    method CowDescentPath(path: seq<nat>, ghost at: seq<nat>) returns (effective: seq<nat>)
      requires |path| == |at| && OnPath(path, at, ids, view) && Cow()
      requires Valid()
      modifies `st, `gen, `nextBlock, `rootCell, `ids, `shapes
      ensures |effective| == |at| && OnPath(effective, at, ids, view) && Private(st, effective, barrier)
      ensures FrozenKept(old(st), st, barrier) && old(st).Keys <= st.Keys && Grew(old(shapes), shapes) && (rootCell.None? ==> old(rootCell).None?)
      ensures Valid()
    {
      hide OnPath, FrozenKept, Valid, Grew, Private, Raised;
      effective := [];
      ghost var cur := path;
      GrewSelf(shapes);
      KeptSelf(st, barrier);
      assert Private(st, effective, barrier) by { NonePrivate(st, barrier); }
      for k := 0 to |path|
        invariant |effective| == k && cur == effective + path[k..]
        invariant OnPath(cur, at, ids, view) && Private(st, effective, barrier)
        invariant FrozenKept(old(st), st, barrier) && old(st).Keys <= st.Keys && Grew(old(shapes), shapes) && (rootCell.None? ==> old(rootCell).None?)
        invariant Valid()
      {
        ghost var st0, ids0, sh0 := st, ids, shapes;
        var orig := path[k];
        assert cur[k] == orig;
        OnPathAt(cur, at, ids, view, k);
        var parent := None;
        if k > 0 {
          assert cur[k - 1] == effective[k - 1];
          OnPathAt(cur, at, ids, view, k - 1);
          PrivateAt(st, effective, barrier, k - 1);
          parent := Some(effective[k - 1]);
        }
        var block := Privatise(orig, parent, at[k], if k > 0 then at[k - 1] else 0);
        KeptTrans(old(st), st0, st, barrier);
        GrewTrans(old(shapes), sh0, shapes);
        PathMoved(cur, at, ids0, view, k, block);
        PrivateMore(st0, st, effective, block, barrier);
        cur := cur[k := block];
        effective := effective + [block];
      }
      assert cur == effective;
    }

    /** The block itself if it is private, else a copy of it. */
    method Privatise(orig: nat, parent: Option<nat>, ghost i: nat, ghost p: nat) returns (block: nat)
      requires i < |ids| == |view.n| && ids[i] == orig && Cow()
      requires parent.None? ==> i == view.root
      requires parent.Some? ==> p < |ids| && p != i && view.n[i].parent == Some(p) && ids[p] == parent.value && Private(st, [parent.value], barrier)
      requires Valid()
      modifies `st, `gen, `nextBlock, `rootCell, `ids, `shapes
      ensures ids == old(ids)[i := block] && Private(st, [block], barrier)
      ensures FrozenKept(old(st), st, barrier) && Raised(old(st), st, barrier) && old(st).Keys <= st.Keys && Grew(old(shapes), shapes) && (rootCell.None? ==> old(rootCell).None?)
      ensures Valid()
    {
      hide Valid, Grew, FrozenKept, Inv, Plain, Rep, HeadersOk, LinksOk, HistoryOk, SizesBut, ShapeFits;
      Unpack();
      RepNonZero(st, ids, view, i);
      if st[orig].gen > barrier {
        block := orig;
        GrewSelf(shapes);
        KeptSelf(st, barrier);
        assert ids == ids[i := block];
      } else {
        block := CopyNode(orig, parent, i, p);
      }
    }

    /** Copies one frozen node to a fresh block, and repoints its private parent or the root. */
    method CopyNode(orig: nat, parent: Option<nat>, ghost i: nat, ghost p: nat) returns (copy: nat)
      requires i < |ids| && |view.n| == |ids| && ids[i] == orig && orig in st && st[orig].gen <= barrier && Cow()
      requires parent.None? ==> i == view.root
      requires parent.Some? ==> p < |ids| && p != i && view.n[i].parent == Some(p) && ids[p] == parent.value && Private(st, [parent.value], barrier)
      requires Valid()
      modifies `st, `gen, `nextBlock, `rootCell, `ids, `shapes
      ensures ids == old(ids)[i := copy] && Private(st, [copy], barrier)
      ensures FrozenKept(old(st), st, barrier) && Raised(old(st), st, barrier) && old(st).Keys <= st.Keys && Grew(old(shapes), shapes) && (rootCell.None? ==> old(rootCell).None?)
      ensures Valid()
    {
      hide Inv, Plain, Rep, SizesBut, ShapeFits, FrozenKept, HistoryOk, HeadersOk, LinksOk, Copied, Grew, ShapeGrew, Valid;
      Unpack();
      ghost var st0 := st;
      if parent.Some? { assert [parent.value][0] == parent.value; }
      copy := WriteCopy(orig, parent);
      CopyKept(st0, st, orig, copy, parent, barrier, old(gen));
      if parent.None? {
        CopyRoot(st0, ids, view, copy, st, old(gen));
        rootCell := Some(copy);
      } else {
        CopyMoves(st0, ids, view, i, copy, p, st, old(gen));
        DistinctRoot(st0, ids, view, i);
      }
      HistoryKept(st0, st, barrier, Cow(), clean, pasts);
      ShapeKept(shapes[epoch], ids, view.g, st0, st, true, barrier);
      FrozenStill(st0, st, orig, barrier);
      ShapeMoved(shapes[epoch], ids, view.g, st, barrier, i, copy);
      GrewOne(shapes, epoch, Joined(shapes[epoch], i, copy));
      shapes := shapes[epoch := Joined(shapes[epoch], i, copy)];
      ids := ids[i := copy];
      Pack();
    }

    method WriteCopy(orig: nat, parent: Option<nat>) returns (copy: nat)
      requires HeadersOk(st, gen, nextBlock) && 0 < nextBlock && orig in st && (parent.Some? ==> parent.value in st)
      modifies `st, `gen, `nextBlock
      ensures HeadersOk(st, gen, nextBlock) && gen > old(gen) && 0 < nextBlock && Copied(old(st), st, orig, copy, parent, old(gen))
    {
      hide HeadersOk, ReplaceChild;
      HeaderOf(st, gen, nextBlock, orig);
      var node := st[orig].(parent := if parent.Some? then parent.value else st[orig].parent);
      copy := Allocate();
      WriteNode(copy, node);
      if parent.Some? {
        HeaderOf(st, gen, nextBlock, parent.value);
        ReplaceKeepsLinks(st[parent.value], orig, copy);
        WriteNode(parent.value, ReplaceChild(st[parent.value], orig, copy));
      }
    }

    // -------------------------------------------------------------------
    // Splitting
    // -------------------------------------------------------------------

    /** Headers and bodies after some nodes were written again: bodies and links stay. */
    ghost predicate Rewritten(before: Store<V>)
      reads this
    {
      st.Keys == before.Keys && forall b :: b in before ==> SameBody(st[b], before[b]) && st[b].prev == before[b].prev && st[b].gen >= before[b].gen
    }

    /** Writes new parent numbers into a list of nodes; those with another parent than `only` are skipped. */
    method Reparent(blocks: seq<nat>, parent: nat, only: Option<nat>)
      requires HeadersOk(st, gen, nextBlock) && forall x :: 0 <= x < |blocks| ==> blocks[x] in st
      modifies `st, `gen
      ensures HeadersOk(st, gen, nextBlock) && Rewritten(old(st)) && gen >= old(gen)
      ensures forall b :: b in st && b !in blocks ==> st[b] == old(st)[b]
      ensures only.None? ==> forall x :: 0 <= x < |blocks| ==> st[blocks[x]].gen > old(gen) && st[blocks[x]].parent == parent
    {
      hide HeadersOk;
      for x := 0 to |blocks|
        invariant HeadersOk(st, gen, nextBlock) && Rewritten(old(st)) && gen >= old(gen)
        invariant forall b :: b in st && b !in blocks ==> st[b] == old(st)[b]
        invariant only.None? ==> forall y :: 0 <= y < x ==> st[blocks[y]].gen > old(gen) && st[blocks[y]].parent == parent
      {
        var b := blocks[x];
        HeaderOf(st, gen, nextBlock, b);
        if only.None? || st[b].parent == only.value {
          WriteNode(b, st[b].(parent := parent));
        }
      }
    }

    /** Moves the root's content to a fresh block and writes the taller root in its place. */
    method WriteGrown(left: nat, b: Key, right: nat) returns (moved: nat)
      requires HeadersOk(st, gen, nextBlock) && 0 < nextBlock && left in st && right in st && left != right
      requires st[left].level > 0 ==> st[left].leftmost in st && forall j :: 0 <= j < |st[left].seps| ==> st[left].seps[j].ptr in st
      modifies `st, `gen, `nextBlock
      ensures HeadersOk(st, gen, nextBlock) && 0 < nextBlock && gen > old(gen) && (LinksOk(old(st)) ==> LinksOk(st))
      ensures Grown(old(st), st, left, b, right, moved)
      ensures old(st)[left].level == 0 ==> OnlyChanged(old(st), st, {left, right}, old(gen))
    {
      hide HeadersOk, SameBody, SameBodies, OnlyChanged, Grown, LinksOk;
      ghost var s0 := st;
      HeaderOf(st, gen, nextBlock, left);
      moved := Allocate();
      var movedNode := st[left].(parent := left);
      TellHalves(left, right, moved);
      ghost var s1, g1 := st, gen;
      assert s1.Keys == s0.Keys by { BodiesKeys(s0, s1); }
      WriteNode(moved, movedNode);
      WriteNode(left, DNode(movedNode.level + 1, moved, [Sep(b, right)], [], 0, 0, 0, 0));
      assert SameBody(st[moved], s0[left]) by { SameButHeader(s0[left], st[moved]); }
      GrownBy(s0, s1, st, left, b, right, moved);
      GrowLinks(s0, st, left, right, moved);
      if s0[left].level == 0 { ChangedMore(s0, s1, st, left, right, moved, old(gen)); }
    }

    /** Tells the right half and the left half's children about their new parents. */
    method TellHalves(left: nat, right: nat, moved: nat)
      requires HeadersOk(st, gen, nextBlock) && left in st && right in st && left != right && moved !in st && moved < nextBlock
      requires st[left].level > 0 ==> st[left].leftmost in st && forall j :: 0 <= j < |st[left].seps| ==> st[left].seps[j].ptr in st
      modifies `st, `gen
      ensures HeadersOk(st, gen, nextBlock) && gen > old(gen) && SameBodies(old(st), st)
      ensures st[right].prev == old(st)[right].prev || st[right].prev == moved
      ensures forall b :: b in st && b != right ==> st[b].prev == old(st)[b].prev
      ensures old(st)[left].level == 0 ==> OnlyChanged(old(st), st, {right}, old(gen))
    {
      hide HeadersOk;
      HeaderOf(st, gen, nextBlock, right);
      var movedNode := st[left];
      var rightNode := st[right].(parent := left);
      if movedNode.level == 0 && rightNode.prev == left {
        rightNode := rightNode.(prev := moved);
      }
      WriteNode(right, rightNode);
      if movedNode.level > 0 {
        Reparent([movedNode.leftmost] + Ptrs(movedNode.seps), moved, Some(left));
      }
    }

    /** Completes a split of the root. */
    method GrowRoot(left: nat, b: Key, right: nat, ghost c: Cutting<V>, ghost key: Key, ghost bound: nat) returns (ghost inner: bool)
      requires HeadersOk(st, gen, nextBlock) && 0 < nextBlock && barrier <= gen && maxInner >= 3
      requires c.b == b && c.id == c.v.root && c.id < |c.v.n| == |c.v.g| == |c.ids| && c.ids[c.id] == left && BoundAt(c.v.n[c.id], c.mid, b)
      requires HalvesWritten(c.st, c.ids, c.id, c.mid, right, st) && (Cow() ==> Private(st, [left, right], barrier))
      requires CutFits(c, maxLeaf, maxInner) && SmallAfter(c, key, bound)
      requires CutOk(c)
      modifies `st, `gen, `nextBlock, `ids, `view
      ensures HeadersOk(st, gen, nextBlock) && 0 < nextBlock && gen > old(gen) && (LinksOk(old(st)) ==> LinksOk(st))
      ensures Cow() && !inner ==> FrozenKept(old(st), st, barrier)
      ensures c.v.n[c.id].Leaf? ==> (inner <==> Crowded(c.v, c.id, maxInner))
      ensures CutAtRoot(c, view)
      ensures Linked(c, key, bound)
    {
      hide CutOk, CutFits, SmallAfter, FrozenKept, HalvesWritten, HeadersOk, LinksOk, LinkedTo, Grown, OnlyChanged, CutArena;
      ghost var s0 := st;
      KidsStored(c, right, st);
      WrittenFacts(c.st, c.ids, c.id, c.mid, right, st);
      NoParent(c);
      inner := st[left].level > 0;
      var moved := WriteGrown(left, b, right);
      if Cow() && !inner {
        assert [left, right][0] == left && [left, right][1] == right;
        ChangedKept(s0, st, {left, right}, barrier, old(gen));
      }
      view := RootView(c.v, b, c.mid);
      ids := (c.ids + [right])[c.id := moved] + [left];
      GrowDone(c, right, s0, moved, st, maxLeaf, maxInner, key, bound);
    }

    /** Divides an inner node that its new separator makes too large: the middle separator goes up. */
    method WriteInnerHalves(pb: nat, items: seq<Sep>) returns (right: nat)
      requires HeadersOk(st, gen, nextBlock) && 0 < nextBlock && pb in st && st[pb].level > 0 && |items| > 0
      requires forall x :: 0 <= x < |items| ==> items[x].ptr in st
      modifies `st, `gen, `nextBlock
      ensures HeadersOk(st, gen, nextBlock) && 0 < nextBlock && gen > old(gen) && (LinksOk(old(st)) ==> LinksOk(st))
      ensures InnerWritten(old(st), st, pb, items, right, old(gen))
      ensures barrier <= old(gen) && old(st)[pb].gen > barrier ==> (FrozenKept(old(st), st, barrier) <==> AllPrivate(old(st), items[|items| / 2..], barrier))
    {
      hide HeadersOk, SameBody, LinksOk, FrozenKept, InnerWritten, AllPrivate;
      ghost var s0 := st;
      HeaderOf(st, gen, nextBlock, pb);
      var parent := st[pb];
      var mid := |items| / 2;
      right := Allocate();
      WriteNode(right, DNode(parent.level, items[mid].ptr, items[mid + 1..], [], 0, parent.parent, 0, 0));
      WriteNode(pb, parent.(seps := items[..mid]));
      ghost var s1 := st;
      var moved := [items[mid].ptr] + Ptrs(items[mid + 1..]);
      Reparent(moved, right, None);
      InnerWrote(s0, s1, st, pb, items, right, old(gen));
      MovedPtrs(items[mid..], moved);
      if barrier <= old(gen) && s0[pb].gen > barrier { RestampedKept(s0, s1, st, pb, items[mid..], moved, right, barrier, old(gen)); }
    }

    /** Adds the right half of a divided node to its parent, dividing that in turn when it is full. */
    method InsertIntoParent(path: seq<nat>, left: nat, b: Key, right: nat, ghost at: seq<nat>, ghost c: Cutting<V>, ghost key: Key, ghost bound: nat)
      returns (ghost inner: bool)
      requires HeadersOk(st, gen, nextBlock) && 0 < nextBlock && barrier <= gen && maxInner >= 3
      requires HalfDone(c, st, path, left, b, right, at) && WillFit(c, maxLeaf, maxInner, key, bound) && (Cow() ==> Private(st, path + [left, right], barrier))
      modifies `st, `gen, `nextBlock, `ids, `view
      ensures HeadersOk(st, gen, nextBlock) && 0 < nextBlock && gen > old(gen) && (LinksOk(old(st)) ==> LinksOk(st))
      ensures Cow() && !inner ==> FrozenKept(old(st), st, barrier)
      ensures OfLeaf(c) ==> (inner <==> Spills(c, maxInner))
      ensures path == [] ==> CutAtRoot(c, view)
      ensures Linked(c, key, bound)
      decreases |path|, 1
    {
      hide Inv, Plain, Rep, StructOk, CutOk, CutFits, SmallAfter, FrozenKept, HalvesWritten, HeadersOk, LinksOk, LinkedTo, OnPath, UnderView, MatchesKids, SameBody, Cuts, Private;
      SplitOfPath(path, at, c.ids, c.v, left, c.id);
      if path == [] {
        assert path + [left, right] == [left, right];
        inner := GrowRoot(left, b, right, c, key, bound);
        return;
      }
      ghost var s0 := st;
      var pb := path[|path| - 1];
      ghost var p := at[|at| - 1];
      ghost var j := ParentReady(c, right, st, path, at);
      CutParts(c);
      InvStruct(c.v);
      SepsReady(c.v, c.ids, c.id, p, j, b, st[pb]);
      var pos := SepPlace(st[pb].seps, b);
      SepPosition(c.v, c.ids, c.id, p, j, b, st[pb], pos);
      KidsCount(st[pb], c.v.n[p], c.ids);
      var items := st[pb].seps[..pos] + [Sep(b, right)] + st[pb].seps[pos..];
      HeaderOf(st, gen, nextBlock, pb);
      if |st[pb].seps| < maxInner - 1 {
        inner := false;
        WriteNode(pb, st[pb].(seps := items));
        LinkedBelow(c, right, p, j, s0, st, maxLeaf, maxInner, key, bound);
        view := UnderView(c.v, c.id, b, c.mid, p, j);
        ids := c.ids + [right];
        if Cow() { WroteParent(s0, st, path, left, right, barrier, old(gen)); }
        LinksSame(s0, st);
        return;
      }
      inner := true;
      DivideParent(path, left, right, pos, pb, items, at, c, key, bound);
    }

    /** Divides a full parent together with its new separator and goes on upwards. */
    method DivideParent(path: seq<nat>, left: nat, right: nat, pos: nat, pb: nat, items: seq<Sep>, ghost at: seq<nat>, ghost c: Cutting<V>, ghost key: Key, ghost bound: nat)
      requires HeadersOk(st, gen, nextBlock) && 0 < nextBlock && barrier <= gen && maxInner >= 3
      requires c.id < |c.v.n| == |c.v.g| == |c.ids| && c.ids[c.id] == left && BoundAt(c.v.n[c.id], c.mid, c.b)
      requires HalvesWritten(c.st, c.ids, c.id, c.mid, right, st) && (Cow() ==> Private(st, path + [left, right], barrier))
      requires |path| == |at| > 0 && OnPath(path + [left], at + [c.id], c.ids, c.v) && path[|path| - 1] == pb
      requires ParentIs(c, st, at[|at| - 1], pos, pb) && |st[pb].seps| >= maxInner - 1
      requires items == st[pb].seps[..pos] + [Sep(c.b, right)] + st[pb].seps[pos..]
      requires CutFits(c, maxLeaf, maxInner) && SmallAfter(c, key, bound)
      requires CutOk(c)
      modifies `st, `gen, `nextBlock, `ids, `view
      ensures HeadersOk(st, gen, nextBlock) && 0 < nextBlock && gen > old(gen) && (LinksOk(old(st)) ==> LinksOk(st))
      ensures Linked(c, key, bound)
      decreases |path|, 0
    {
      hide Inv, Plain, Rep, CutOk, CutFits, SmallAfter, FrozenKept, HalvesWritten, HeadersOk, LinksOk, LinkedTo, OnPath, UnderView, MatchesKids, SameBody, Private, InnerWritten, Anchored;
      CutParts(c);
      ghost var s0, p := st, at[|at| - 1];
      ghost var next := InnerCut(c, right, p, pos, s0, pb, items, maxLeaf, maxInner, key, bound);
      PtrsStored(c, right, s0, p, pos, pb, items);
      var rightInner := WriteInnerHalves(pb, items);
      InnerHalves(next, s0, st, pb, items, rightInner, old(gen));
      PathAbove(path, at, c, right, p, pos, next);
      if Cow() { PrivateAbove(s0, st, path, left, right, pb, items, rightInner, barrier, old(gen)); }
      ghost var above := InsertIntoParent(path[..|path| - 1], pb, items[|items| / 2].key, rightInner, at[..|at| - 1], next, key, bound);
      ThroughParts(c, right, next, pos);
      LinkedThrough(st, ids, view, c, next, maxLeaf, maxInner, key, bound);
    }

    /** Writes the two halves of a leaf and hooks the new one into the chain of leaves. */
    method WriteLeafHalves(leaf: nat, node: DNode<V>, mid: nat) returns (right: nat)
      requires HeadersOk(st, gen, nextBlock) && 0 < nextBlock && leaf in st && st[leaf].level == 0 && mid <= |st[leaf].items|
      requires AsStored(st, leaf, node)
      modifies `st, `gen, `nextBlock
      ensures HeadersOk(st, gen, nextBlock) && 0 < nextBlock && gen > old(gen) && (LinksOk(old(st)) ==> LinksOk(st))
      ensures LeafWritten(old(st), st, leaf, mid, right, old(gen))
    {
      hide HeadersOk, LinksOk, LeafWritten;
      ghost var s0 := st;
      HeaderOf(st, gen, nextBlock, leaf);
      if node.prev != 0 { HeaderOf(st, gen, nextBlock, node.prev); }
      right := Allocate();
      if node.next != 0 && node.next in st && st[node.next].prev == leaf {
        HeaderOf(st, gen, nextBlock, node.next);
        WriteNode(node.next, st[node.next].(prev := right));
      }
      ghost var s1 := st;
      WriteNode(right, DNode(0, 0, [], node.items[mid..], 0, 0, node.next, leaf));
      WriteNode(leaf, node.(items := node.items[..mid], next := right));
      LeafWrote(s0, s1, st, leaf, mid, right, node.next, old(gen));
    }

    /** Divides a full leaf, and its ancestors as needed. */
    method SplitLeaf(path: seq<nat>, leaf: nat, node: DNode<V>, ghost at: seq<nat>, ghost i: nat, ghost key: Key)
      requires i < |ids| == |view.n| == |view.g| && |path| == |at| && OnPath(path + [leaf], at + [i], ids, view)
      requires view.n[i].Leaf? && In(view.g[i], key) && |view.n[i].entries| >= maxLeaf - 1 && (Cow() ==> Private(st, path + [leaf], barrier))
      requires AsStored(st, leaf, node) && node.items == view.n[i].entries
      requires Valid()
      modifies `st, `gen, `nextBlock, `ids, `view, `epoch, `shapes, `clean
      ensures view.model == old(view.model) && Grew(old(shapes), shapes)
      ensures clean <==> old(clean) && !(Cow() && i < |old(view).n| && Crowded(old(view), i, maxInner))
      ensures |node.items| > 0 && SmallAt(view, key, |node.items| - 1) && (Anchored(old(view)) ==> Anchored(view))
      ensures path == [] ==> LeafRoot(old(view)) && view == RootHalved(old(view))
      ensures Cow() && clean ==> FrozenKept(old(st), st, barrier)
      ensures Valid()
    {
      hide Inv, Plain, Rep, HeadersOk, LinksOk, HistoryOk, FrozenKept, OnPath, HalvesWritten, ShapeFits, SizesBut, SmallAt, LinkedTo, CutFits, SmallAfter, CutOk, In, Private, BoundAt, Crowded, AsStored, Valid, HalfDone, WillFit, Anchored, Grew, CutAtRoot, RootHalved, LeafRoot;
      Unpack();
      epoch := epoch + 1;
      ghost var c;
      var right, promote;
      right, promote, c := CutLeaf(path, leaf, node, at, i, key);
      assert c.b == promote by { HalfBound(c, st, path, leaf, promote, right, at); }
      JoinHalf(path, leaf, promote, right, at, c, key, |node.items| - 1);
      if path == [] { CutWasRoot(c, view, node.items); }
    }

    /** Hooks the right half of a leaf into the tree and closes the epoch. */
    method JoinHalf(path: seq<nat>, leaf: nat, promote: Key, right: nat, ghost at: seq<nat>, ghost c: Cutting<V>, ghost key: Key, ghost bound: nat)
      requires HeadersOk(st, gen, nextBlock) && LinksOk(st) && barrier <= gen && 0 < nextBlock && maxLeaf >= 3 && maxInner >= 3 && |shapes| == epoch
      requires OfLeaf(c) && HalfDone(c, st, path, leaf, promote, right, at) && WillFit(c, maxLeaf, maxInner, key, bound)
      requires c.v.root < |c.ids| && c.ids[c.v.root] == RootNow() && (Cow() ==> Private(st, path + [leaf, right], barrier))
      requires HistoryOk(c.st, barrier, Cow(), clean, pasts) && (Cow() && clean ==> FrozenKept(c.st, st, barrier))
      modifies `st, `gen, `nextBlock, `ids, `view, `shapes, `clean
      ensures view.model == c.v.model && Grew(old(shapes), shapes) && SmallAt(view, key, bound) && (Anchored(c.v) ==> Anchored(view))
      ensures clean <==> old(clean) && !(Cow() && Spills(c, maxInner))
      ensures path == [] ==> CutAtRoot(c, view)
      ensures Cow() && clean ==> FrozenKept(c.st, st, barrier)
      ensures Valid()
    {
      hide Inv, Plain, Rep, HeadersOk, LinksOk, HistoryOk, FrozenKept, ShapeFits, SizesBut, SmallAt, LinkedTo, Private, Valid, HalfDone, WillFit, Anchored, Grew, OfLeaf, Spills, CutAtRoot;
      ghost var s1 := st;
      ghost var inner := InsertIntoParent(path, leaf, promote, right, at, c, key, bound);
      clean := clean && !(Cow() && inner);
      LinkedParts(st, ids, view, c, maxLeaf, maxInner, key, bound);
      GrewBy(shapes, [FreshShape(ids, view.g)]);
      shapes := shapes + [FreshShape(ids, view.g)];
      if Cow() && clean { KeptTrans(c.st, s1, st, barrier); }
      HistoryLess(c.st, barrier, Cow(), old(clean), clean, pasts);
      HistoryKept(c.st, st, barrier, Cow(), clean, pasts);
      FreshFits(ids, view.g, st, Cow(), barrier);
      Pack();
    }

    /** Writes the halves of a full leaf; the rest of the tree still lacks the right one. */
    method CutLeaf(path: seq<nat>, leaf: nat, node: DNode<V>, ghost at: seq<nat>, ghost i: nat, ghost key: Key) returns (right: nat, promote: Key, ghost c: Cutting<V>)
      requires i < |ids| == |view.n| == |view.g| && |path| == |at| && OnPath(path + [leaf], at + [i], ids, view) && view.root < |ids|
      requires view.n[i].Leaf? && In(view.g[i], key) && |view.n[i].entries| >= maxLeaf - 1 && maxLeaf >= 3 && (Cow() ==> Private(st, path + [leaf], barrier))
      requires AsStored(st, leaf, node) && node.items == view.n[i].entries
      requires HeadersOk(st, gen, nextBlock) && 0 < nextBlock && barrier <= gen && HistoryOk(st, barrier, Cow(), clean, pasts)
      requires SizesBut(view, maxLeaf, maxInner, {}) && Inv(view) && Plain(view) && Rep(st, ids, view)
      modifies `st, `gen, `nextBlock
      ensures HeadersOk(st, gen, nextBlock) && 0 < nextBlock && gen > old(gen) && (LinksOk(old(st)) ==> LinksOk(st))
      ensures c.st == old(st) && c.ids == ids && c.v == view && c.id == i && HalfDone(c, st, path, leaf, promote, right, at)
      ensures Cow() ==> Private(st, path + [leaf, right], barrier)
      ensures Cow() && clean ==> FrozenKept(old(st), st, barrier)
      ensures |node.items| > 0 && WillFit(c, maxLeaf, maxInner, key, |node.items| - 1) && c.mid == |node.items| / 2 && promote == node.items[c.mid].key
    {
      hide Inv, Plain, Rep, HeadersOk, LinksOk, HistoryOk, FrozenKept, FrozenLinks, OnPath, HalvesWritten, SizesBut, LeafWritten, CutFits, SmallAfter, CutOk, In, Private;
      ghost var s0 := st;
      LeafStored(st, ids, view, path, at, leaf, i);
      SizeOfNode(view, maxLeaf, maxInner, i);
      var count := |node.items|;
      var mid := count / 2;
      promote := node.items[mid].key;
      right := WriteLeafHalves(leaf, node, mid);
      c := Cutting(s0, ids, view, i, promote, mid);
      LeafCut(c, s0, st, leaf, right, old(gen), maxLeaf, maxInner, key);
      if Cow() {
        if clean {
          HistoryLinks(s0, barrier, Cow(), clean, pasts);
          LeafKept(s0, st, leaf, path, mid, right, barrier, old(gen));
        }
        LeafPrivate(s0, st, leaf, path, mid, right, barrier, old(gen));
      }
    }

    // -------------------------------------------------------------------
    // Changing a leaf
    // -------------------------------------------------------------------

    /** Writes a leaf with new items; `node` gives the other header fields. */
    method PutItems(leaf: nat, node: DNode<V>, items: seq<Entry<V>>, ghost i: nat, ghost key: Key, ghost op: Op<V>)
      requires i < |ids| == |view.n| == |view.g| && ids[i] == leaf && view.n[i].Leaf? && In(view.g[i], key) && leaf in st
      requires Applied(view.n[i].entries, key, op, items) && |items| < maxLeaf && AsStored(st, leaf, node)
      requires Cow() ==> st[leaf].gen > barrier
      requires Valid()
      modifies `st, `gen, `view
      ensures view == LeafPut(old(view), i, key, op, items) && gen == old(gen) + 1 && st == old(st)[leaf := node.(items := items, gen := gen)]
      ensures Cow() ==> FrozenKept(old(st), st, barrier)
      ensures Valid()
    {
      hide Inv, Plain, Rep, HeadersOk, HistoryOk, FrozenKept, ShapeFits, Applied, SizesBut, In, Valid;
      Unpack();
      ghost var s0 := st;
      HeaderOf(st, gen, nextBlock, leaf);
      if node.prev != 0 { HeaderOf(st, gen, nextBlock, node.prev); }
      WriteNode(leaf, node.(items := items));
      if Cow() { KeptWrite(s0, leaf, st[leaf], barrier); }
      RepLeafPut(s0, ids, view, i, key, op, items, st);
      LeafPutOk(view, i, key, op, items);
      SizesPut(view, maxLeaf, maxInner, i, key, op, items);
      HistoryKept(s0, st, barrier, Cow(), clean, pasts);
      ShapeKept(shapes[epoch], ids, view.g, s0, st, Cow(), barrier);
      view := LeafPut(view, i, key, op, items);
      Pack();
    }

    /** Walks down to the leaf of a key and makes the whole path private. The leaf is read before it may move. */
    method Approach(key: Key) returns (path: seq<nat>, node: DNode<V>, rightmost: bool, ghost at: seq<nat>, ghost i: nat)
      requires Valid()
      modifies `st, `gen, `nextBlock, `rootCell, `ids, `shapes
      ensures |path| == |at| > 0 && at[|at| - 1] == i < |ids| == |view.n| == |view.g| && ids[i] == path[|path| - 1] && OnPath(path, at, ids, view)
      ensures view.n[i].Leaf? && In(view.g[i], key) && (rightmost <==> view.g[i].hi.None?) && ids[i] in st && AsStored(st, ids[i], node) && node.items == view.n[i].entries
      ensures Grew(old(shapes), shapes)
      ensures Cow() ==> FrozenKept(old(st), st, barrier) && Private(st, path, barrier)
      ensures if Cow() then rootCell.None? ==> old(rootCell).None? else rootCell == old(rootCell)
      ensures Valid()
    {
      hide Inv, Plain, Rep, HeadersOk, HistoryOk, FrozenKept, OnPath, ShapeFits, SizesBut, In, Private, Grew;
      GrewSelf(shapes);
      path, rightmost, at := Descend(key);
      RepSizes(st, ids, view);
      PathLeaf(st, ids, view, path, at);
      i := at[|at| - 1];
      node := st[path[|path| - 1]];
      if Cow() {
        path := CowDescentPath(path, at);
        RepSizes(st, ids, view);
        PathLeaf(st, ids, view, path, at);
      }
    }

    /** Inserts by a full descent, dividing full leaves on the way. Also says where the key went. */
    method InsertAt(key: Key, value: V, ghost tries: nat) returns (leaf: nat, rightmost: bool, least: Key, greatest: Key, count: nat, split: bool)
      requires Valid() && SmallAt(view, key, tries)
      modifies `st, `gen, `nextBlock, `rootCell, `ids, `view, `epoch, `shapes, `clean
      ensures view.model == old(view.model)[key := value] && Grew(old(shapes), shapes) && (Anchored(old(view)) ==> Anchored(view))
      ensures clean <==> old(clean) && !(Cow() && CrowdedAt(old(view), key, maxLeaf, maxInner))
      ensures Cow() && clean ==> FrozenKept(old(st), st, barrier)
      ensures if Cow() then rootCell.None? ==> old(rootCell).None? else rootCell == old(rootCell)
      ensures LandedIn(leaf, rightmost, least, greatest, count)
      ensures InsertStep(old(view), view, key, value, maxLeaf)
      ensures Valid()
      decreases tries
    {
      hide Inv, Plain, Rep, Stored, FrozenKept, OnPath, ShapeFits, SizesBut, SmallAt, In, Private, LandedIn, AsStored, Anchored, Crowded, CrowdedAt, Grew, PutStep, InsertStep, RoomMade;
      ghost var s0, sh0 := st, shapes;
      ghost var at, i;
      var path, node;
      path, node, rightmost, at, i := Approach(key);
      leaf := path[|path| - 1];
      ghost var s1, sh1 := st, shapes;
      if |node.items| >= maxLeaf - 1 {
        MakeRoom(path, node, at, i, key);
        ghost var s2, sh2, w := st, shapes, view;
        RoomFacts(old(view), w, key, maxLeaf, maxInner);
        SmallerTries(old(view), view, key, i, tries, maxLeaf - 1);
        var again;
        leaf, rightmost, least, greatest, count, again := InsertAt(key, value, tries - 1);
        split := true;
        StepSplit(old(view), w, view, key, value, maxLeaf);
        GrewTrans(sh0, sh1, sh2);
        GrewTrans(sh0, sh2, shapes);
        if Cow() && clean { KeptTrans(s0, s1, s2, barrier); KeptTrans(s0, s2, st, barrier); }
        return;
      }
      split := false;
      RoomHere(view, key, maxLeaf, maxInner, i);
      RoomInRoot(view, key, i, maxLeaf);
      if Cow() { PrivateLeaf(st, path, barrier); }
      least, greatest, count := PutInto(leaf, node, key, value, i, rightmost);
      StepDirect(old(view), view, key, value, maxLeaf);
      if Cow() { KeptTrans(s0, s1, st, barrier); }
    }

    /** Divides the full leaf at the end of a private path; the leaf of the key has room afterwards. */
    method MakeRoom(path: seq<nat>, node: DNode<V>, ghost at: seq<nat>, ghost i: nat, ghost key: Key)
      requires |path| == |at| > 0 && at[|at| - 1] == i < |ids| == |view.n| == |view.g| && ids[i] == path[|path| - 1] && OnPath(path, at, ids, view)
      requires view.n[i].Leaf? && In(view.g[i], key) && ids[i] in st && AsStored(st, ids[i], node) && node.items == view.n[i].entries
      requires |node.items| >= maxLeaf - 1 && (Cow() ==> Private(st, path, barrier))
      requires Valid()
      modifies `st, `gen, `nextBlock, `ids, `view, `epoch, `shapes, `clean
      ensures view.model == old(view.model) && Grew(old(shapes), shapes) && (Anchored(old(view)) ==> Anchored(view))
      ensures clean <==> old(clean) && !(Cow() && CrowdedAt(old(view), key, maxLeaf, maxInner))
      ensures Cow() && clean ==> FrozenKept(old(st), st, barrier)
      ensures |node.items| == maxLeaf - 1 && RoomMade(old(view), view, key, maxLeaf)
      ensures Valid()
    {
      hide Inv, Plain, Rep, HeadersOk, LinksOk, HistoryOk, FrozenKept, OnPath, ShapeFits, SizesBut, SmallAt, In, Private, AsStored, Anchored, Crowded, CrowdedAt, Grew, RootHalved, FullRoot, LeafRoot, Valid;
      Unpack();
      ghost var v := view;
      PathPieces(path, at);
      if FullRoot(v, maxLeaf) { RootIsPath(path, at, ids, v, key, maxLeaf); }
      CrowdedHere(v, key, maxLeaf, maxInner, i);
      assert |node.items| == maxLeaf - 1 by { SizeOfNode(v, maxLeaf, maxInner, i); }
      FullIsNotSmall(v, key, i, maxLeaf - 2);
      SplitLeaf(path[..|path| - 1], path[|path| - 1], node, at[..|at| - 1], i, key);
    }

    /** Puts an item into a leaf with room and writes the leaf back. */
    method PutInto(leaf: nat, node: DNode<V>, key: Key, value: V, ghost i: nat, ghost rightmost: bool) returns (least: Key, greatest: Key, count: nat)
      requires i < |ids| == |view.n| == |view.g| && ids[i] == leaf && view.n[i].Leaf? && In(view.g[i], key) && leaf in st
      requires AsStored(st, leaf, node) && node.items == view.n[i].entries && |node.items| < maxLeaf - 1 && (rightmost ==> view.g[i].hi.None?)
      requires Cow() ==> st[leaf].gen > barrier
      requires Valid()
      modifies `st, `gen, `view
      ensures view.model == old(view.model)[key := value] && (Anchored(old(view)) ==> Anchored(view))
      ensures PutStep(old(view), view, key, Upsert(value))
      ensures Cow() ==> FrozenKept(old(st), st, barrier)
      ensures LandedIn(leaf, rightmost, least, greatest, count)
      ensures Valid()
    {
      hide Inv, Plain, Rep, Stored, FrozenKept, ShapeFits, SizesBut, In, Applied, LeafIs, Anchored, PutStep;
      LeafSorted(view, i);
      var found, pos := EntryPosition(node.items, key);
      var items := node.items;
      count := |items|;
      if found {
        items := items[pos := Entry(key, value)];
        ReplaceApplied(node.items, pos, value);
      } else {
        items := items[..pos] + [Entry(key, value)] + items[pos..];
        InsertApplied(node.items, pos, key, value);
        count := count + 1;
      }
      least, greatest := items[0].key, items[count - 1].key;
      if Anchored(view) { PutAnchored(view, i, key, value, items); }
      PutItems(leaf, node, items, i, key, Upsert(value));
      WasPut(old(view), i, key, Upsert(value), items);
      ItLanded(ids, view, i, leaf, rightmost, least, greatest, count);
    }

    /** Removes a key; says whether it was there. Leaves are never merged. */
    method Remove(key: Key) returns (found: bool)
      requires Valid()
      modifies `st, `gen, `nextBlock, `rootCell, `ids, `view, `epoch, `shapes
      ensures found <==> key in old(view.model)
      ensures view.model == old(view.model) - {key} && Grew(old(shapes), shapes) && epoch == old(epoch) + 1
      ensures if found then PutStep(old(view), view, key, Op.Delete) else view == old(view)
      ensures Cow() ==> FrozenKept(old(st), st, barrier)
      ensures if Cow() then rootCell.None? ==> old(rootCell).None? else rootCell == old(rootCell)
      ensures Valid()
    {
      hide Inv, Plain, Rep, HeadersOk, HistoryOk, FrozenKept, OnPath, ShapeFits, SizesBut, In, Private, AsStored, Applied, Valid, LinksOk, Grew, PutStep;
      Unpack();
      epoch := epoch + 1;
      GrewBy(shapes, [FreshShape(ids, view.g)]);
      shapes := shapes + [FreshShape(ids, view.g)];
      FreshFits(ids, view.g, st, Cow(), barrier);
      Pack();
      ghost var s0, sh0 := st, shapes;
      ghost var at, i;
      var path, node, rightmost;
      path, node, rightmost, at, i := Approach(key);
      GrewTrans(old(shapes), sh0, shapes);
      Unpack();
      LeafSorted(view, i);
      var pos;
      found, pos := EntryPosition(node.items, key);
      LeafDecides(view, i, key, if found then Some(node.items[pos].value) else None);
      if found {
        ghost var s1 := st;
        if Cow() { PrivateLeaf(st, path, barrier); }
        TakeOut(path[|path| - 1], node, pos, i);
        if Cow() { KeptTrans(s0, s1, st, barrier); }
      }
    }

    /** Writes a leaf without one of its items. */
    method TakeOut(leaf: nat, node: DNode<V>, pos: nat, ghost i: nat)
      requires i < |ids| == |view.n| == |view.g| && ids[i] == leaf && view.n[i].Leaf? && leaf in st && AsStored(st, leaf, node)
      requires pos < |node.items| && node.items == view.n[i].entries && In(view.g[i], node.items[pos].key) && (Cow() ==> st[leaf].gen > barrier)
      requires Valid()
      modifies `st, `gen, `view
      ensures view.model == old(view.model) - {node.items[pos].key} && PutStep(old(view), view, node.items[pos].key, Op.Delete)
      ensures Cow() ==> FrozenKept(old(st), st, barrier)
      ensures Valid()
    {
      hide Inv, Plain, Rep, HeadersOk, HistoryOk, FrozenKept, ShapeFits, SizesBut, In, Applied, Valid, LinksOk, PutStep;
      Unpack();
      LeafSorted(view, i);
      RemoveApplied(node.items, pos);
      SizeOfNode(view, maxLeaf, maxInner, i);
      PutItems(leaf, node, node.items[..pos] + node.items[pos + 1..], i, node.items[pos].key, Op.Delete);
      WasPut(old(view), i, node.items[pos].key, Op.Delete, node.items[..pos] + node.items[pos + 1..]);
    }

    // -------------------------------------------------------------------
    // Snapshots and the rest of the file system
    // -------------------------------------------------------------------

    /** A snapshot: everything stored so far is behind the barrier. Records the root it returns. */
    method TakeSnapshot() returns (root: nat)
      requires gen > 0
      requires Valid()
      modifies `barrier, `clean, `pasts
      ensures root == RootNow() && barrier == gen && clean
      ensures frozenType ==> pasts == (if old(clean) then old(pasts) else []) + [Past(root, ids, view)]
      ensures !frozenType ==> pasts == if old(clean) then old(pasts) else []
      ensures Valid()
    {
      hide Inv, Plain, Rep, SizesBut, HistoryOk, HeadersOk, LinksOk, ShapeFits;
      root := RootNow();
      SnapshotHistory(st, barrier, Cow(), clean, pasts, frozenType, Past(root, ids, view), gen, nextBlock);
      SnapshotShape(shapes[epoch], ids, view.g, st, Cow(), barrier, gen > 0 && frozenType, gen);
      pasts := (if clean then pasts else []) + (if frozenType then [Past(root, ids, view)] else []);
      clean := true;
      barrier := if gen > barrier then gen else barrier;
    }

    /** What trees of other types do meanwhile: they use up stamps and blocks, and may move the epoch on. */
    method Elsewhere(stamps: nat, blocks: nat, reshaped: bool)
      requires Valid()
      modifies `gen, `nextBlock, `epoch, `shapes
      ensures gen == old(gen) + stamps && nextBlock == old(nextBlock) + blocks && epoch == old(epoch) + (if reshaped then 1 else 0)
      ensures Grew(old(shapes), shapes)
      ensures Valid()
    {
      hide Inv, Plain, Rep, SizesBut, HistoryOk, Grew;
      GrewSelf(shapes);
      gen := gen + stamps;
      nextBlock := nextBlock + blocks;
      if reshaped {
        epoch := epoch + 1;
        GrewBy(shapes, [FreshShape(ids, view.g)]);
        shapes := shapes + [FreshShape(ids, view.g)];
      }
    }

    /** The entry with the greatest key at or below the given one, as far as the key's own leaf tells. */
    method FloorUnder(root: nat, key: Key, ghost ids': seq<nat>, ghost v: View<V>) returns (r: Option<Entry<V>>)
      requires |ids'| == |v.n| == |v.g| && v.root < |ids'| && ids'[v.root] == root && Plain(v)
      requires Inv(v) && Rep(st, ids', v)
      ensures LeafAnswers(v, key, r)
    {
      hide Inv, Rep;
      ghost var i;
      var leaf;
      leaf, i := FindLeaf(root, key, ids', v);
      LeafSorted(v, i);
      var items := st[leaf].items;
      var found, pos := EntryPosition(items, key);
      if found {
        r := Some(items[pos]);
        LeafFloorAt(items, key, pos);
      } else if pos == 0 {
        r := None;
      } else {
        r := Some(items[pos - 1]);
        LeafFloorAt(items, key, pos - 1);
      }
    }

    /** The floor of a key in the live tree, as far as the key's own leaf can tell: right if and only if the tree is not
        stranded at the key. A tree whose leaves still hold the keys they start at, as one does that was only inserted
        into, is stranded nowhere. */
    method LookupFloor(key: Key) returns (r: Option<Entry<V>>)
      requires Valid()
      ensures LeafAnswers(view, key, r)
      ensures Floor(view.model, key, r) <==> !Stranded(view, key)
      ensures Anchored(view) ==> Floor(view.model, key, r)
    {
      hide Inv, Plain, Rep, Stored, SizesBut, ShapeFits, Floor, Anchored, Stranded, LeafAnswers;
      RepSizes(st, ids, view);
      r := FloorUnder(RootNow(), key, ids, view);
      FloorKnown(view, key, r);
    }

    /** Appends the entries below a node to a list, following child pointers. */
    method CollectPairs(block: nat, before: seq<Entry<V>>, ghost ids': seq<nat>, ghost v: View<V>, ghost i: nat) returns (out: seq<Entry<V>>)
      requires i < |ids'| == |v.n| == |v.g| && ids'[i] == block && Plain(v)
      requires Inv(v) && Rep(st, ids', v)
      ensures before <= out && Lists(out[|before|..], v.g[i].lo, v.g[i].hi, v.model)
      decreases v.g[i].level
    {
      hide Inv, Plain, Lists;
      assert NodeAt(st, ids', v, i);
      var node := st[block];
      if node.level == 0 {
        out := before + node.items;
        assert out[|before|..] == node.items;
        LeafLists(v, i);
        return;
      }
      ghost var cs := v.n[i].children;
      KidsMeet(v, i, 0);
      out := CollectPairs(node.leftmost, before, ids', v, cs[0].id);
      for j := 0 to |node.seps|
        invariant before <= out && cs[j].id < |v.n| && Lists(out[|before|..], v.g[i].lo, v.g[cs[j].id].hi, v.model)
      {
        ghost var out0, c, c' := out, cs[j].id, cs[j + 1].id;
        KidsMeet(v, i, j);
        KidsMeet(v, i, j + 1);
        assert node.seps[j].ptr == ids'[c'];
        out := CollectPairs(node.seps[j].ptr, out, ids', v, c');
        assert out[|before|..] == out0[|before|..] + out[|out0|..];
        ListsJoin(out0[|before|..], out[|out0|..], v.g[i].lo, v.g[c'].lo.value, v.g[c'].hi, v.model);
      }
      KidsMeet(v, i, |cs| - 1);
    }

    /** All entries under a root, in key order. */
    method IterUnder(root: nat, ghost ids': seq<nat>, ghost v: View<V>) returns (out: seq<Entry<V>>)
      requires |ids'| == |v.n| == |v.g| && v.root < |ids'| && ids'[v.root] == root && Plain(v)
      requires Inv(v) && Rep(st, ids', v)
      ensures Lists(out, None, None, v.model)
    {
      hide MsgInv, ContentInv, Rep, Lists, Plain;
      out := CollectPairs(root, [], ids', v, v.root);
      assert out[0..] == out;
    }

    /** The whole content of the live tree, in key order. */
    method IterAll() returns (out: seq<Entry<V>>)
      requires Valid()
      ensures Sorted(out)
      ensures forall e :: e in out ==> e.key in view.model && view.model[e.key] == e.value
      ensures forall k :: k in view.model ==> Entry(k, view.model[k]) in out
    {
      hide Inv, Plain, Rep, Stored, SizesBut, ShapeFits;
      RepSizes(st, ids, view);
      out := IterUnder(RootNow(), ids, view);
      ListsOnce(out, view.model);
    }

    /** The whole content under a recorded root. */
    method IterPast(root: nat, ghost x: nat) returns (out: seq<Entry<V>>)
      requires Valid() && clean && x < |pasts| && pasts[x].root == root
      ensures Sorted(out)
      ensures forall e :: e in out ==> e.key in pasts[x].view.model && pasts[x].view.model[e.key] == e.value
      ensures forall k :: k in pasts[x].view.model ==> Entry(k, pasts[x].view.model[k]) in out
    {
      hide Inv, Plain, Rep, HeadersOk, FrozenLinks, SizesBut, ShapeFits;
      assert PastOk(st, pasts[x], barrier);
      RepSizes(st, pasts[x].ids, pasts[x].view);
      out := IterUnder(root, pasts[x].ids, pasts[x].view);
      ListsOnce(out, pasts[x].view.model);
    }

    method LookupUnder(root: nat, key: Key, ghost ids': seq<nat>, ghost v: View<V>) returns (r: Option<V>)
      requires |ids'| == |v.n| == |v.g| && v.root < |ids'| && ids'[v.root] == root && Plain(v)
      requires Inv(v) && Rep(st, ids', v)
      ensures r == Get(v.model, key)
    {
      hide Inv, Rep;
      ghost var i;
      var leaf;
      leaf, i := FindLeaf(root, key, ids', v);
      LeafSorted(v, i);
      var items := st[leaf].items;
      var found, pos := EntryPosition(items, key);
      r := if found then Some(items[pos].value) else None;
      LeafDecides(v, i, key, r);
    }

    /** The value of a key in the live tree. */
    method Lookup(key: Key) returns (r: Option<V>)
      requires Valid()
      ensures r == Get(view.model, key)
    {
      hide Inv, Plain, Rep, Stored, SizesBut, ShapeFits;
      RepSizes(st, ids, view);
      r := LookupUnder(RootNow(), key, ids, view);
    }

    /** The value of a key under a recorded root, read verbatim. */
    method LookupPast(root: nat, key: Key, ghost x: nat) returns (r: Option<V>)
      requires Valid() && clean && x < |pasts| && pasts[x].root == root
      ensures r == Get(pasts[x].view.model, key)
    {
      hide Inv, Plain, Rep, HeadersOk, FrozenLinks, SizesBut, ShapeFits;
      assert PastOk(st, pasts[x], barrier);
      RepSizes(st, pasts[x].ids, pasts[x].view);
      r := LookupUnder(root, key, pasts[x].ids, pasts[x].view);
    }
  }

  /** With nothing buffered, a leaf's entries decide the keys of its region. */
  lemma LeafDecides<V>(v: View<V>, i: nat, key: Key, r: Option<V>)
    requires Inv(v) && Plain(v) && i < |v.n| == |v.g| && v.n[i].Leaf? && In(v.g[i], key) && Holds(v.n[i].entries, key, r)
    ensures r == Get(v.model, key)
  {
    hide MsgInv, StructOk;
    LeafSorted(v, i);
    assert Quiet(v.bag, key);
    assert Settled(v.n[i].entries, v.bag, v.model, key);
    HoldsOnce(v.n[i].entries, key, r, Get(v.model, key));
  }
}
