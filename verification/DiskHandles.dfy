/** Handles over one on-disk B+ tree, each with its own caches of leaves: the append cache of
    the rightmost leaf and the in-place update cache of a key range. The caches skip the
    descent; they are trusted only in the structural epoch they were recorded in. */
module DiskHandles {
  import opened Options
  import opened BeTreeModel
  import opened BeTreeMessages
  import opened BeTreeContent
  import opened BeTreeSplit
  import opened BeTreeState
  import opened BeTreeCut
  import opened BT = BeTree
  import opened DiskModel
  import opened DiskSplit
  import opened DiskHistory
  import opened DiskPending
  import opened DT = DiskTree

  datatype FastLeaf = FastLeaf(block: nat, lastKey: Key, count: nat, epoch: nat)

  datatype RangeLeaf = RangeLeaf(block: nat, minKey: Key, maxKey: Key, count: nat, epoch: nat)

  // ---------------------------------------------------------------------
  // What a cache entry knows
  // ---------------------------------------------------------------------

  /** In that epoch the block held a leaf whose region spans both keys, the last leaf if so marked. */
  ghost predicate Recorded(shapes: seq<Shape>, epoch: nat, block: nat, lo: Key, hi: Key, last: bool)
  {
    epoch < |shapes| && exists i :: LeafThen(shapes[epoch], i, block, lo, hi, last)
  }

  ghost predicate LeafThen(sh: Shape, i: nat, block: nat, lo: Key, hi: Key, last: bool)
  {
    && i < |sh.blocks| == |sh.g| && block in sh.blocks[i] && sh.g[i].level == 0 && In(sh.g[i], lo) && In(sh.g[i], hi)
    && (last ==> sh.g[i].hi.None?)
  }

  /** Nothing that happens to the tree later makes a cache entry false. */
  lemma RecordedForever(a: seq<Shape>, b: seq<Shape>, epoch: nat, block: nat, lo: Key, hi: Key, last: bool)
    requires Grew(a, b) && Recorded(a, epoch, block, lo, hi, last)
    ensures Recorded(b, epoch, block, lo, hi, last)
  {
    var i :| LeafThen(a[epoch], i, block, lo, hi, last);
    assert ShapeGrew(a[epoch], b[epoch]);
    assert LeafThen(b[epoch], i, block, lo, hi, last);
  }

  /** In its own epoch a cache entry names the block of a current leaf that covers every key
      between the two recorded ones, unless the block is frozen. */
  lemma StillThere<V>(shapes: seq<Shape>, epoch: nat, block: nat, lo: Key, hi: Key, last: bool,
                      st: Store<V>, ids: seq<nat>, v: View<V>, cow: bool, barrier: nat, key: Key) returns (i: nat)
    requires Recorded(shapes, epoch, block, lo, hi, last) && ShapeFits(shapes[epoch], ids, v.g, st, cow, barrier)
    requires Inv(v) && Rep(st, ids, v) && block in st && !(cow && st[block].gen <= barrier) && lo <= key && (key <= hi || last)
    ensures i < |ids| == |v.n| == |v.g| && ids[i] == block && v.n[i].Leaf? && In(v.g[i], key) && st[block].level == 0 && st[block].items == v.n[i].entries
    ensures last ==> v.g[i].hi.None?
  {
    hide MsgInv, ContentInv, StructOk;
    i :| LeafThen(shapes[epoch], i, block, lo, hi, last);
    assert LeftFrozen(shapes[epoch].blocks[i], ids[i], st, cow, barrier);
    InvStruct(v);
    LevelZero(v, i);
    assert NodeAt(st, ids, v, i);
  }

  /** The leaf a descent wrote to is recorded in the current epoch. */
  lemma JustRecorded<V>(shapes: seq<Shape>, epoch: nat, st: Store<V>, ids: seq<nat>, v: View<V>, cow: bool, barrier: nat,
                        leaf: nat, rightmost: bool, least: Key, greatest: Key, count: nat)
    requires epoch < |shapes| && ShapeFits(shapes[epoch], ids, v.g, st, cow, barrier) && |ids| == |v.n| == |v.g| && Inv(v)
    requires exists i :: 0 <= i < |ids| && LeafIs(ids, v, i, leaf, rightmost, least, greatest, count)
    ensures Recorded(shapes, epoch, leaf, least, greatest, false) && (rightmost ==> Recorded(shapes, epoch, leaf, greatest, greatest, true))
  {
    hide MsgInv, ContentInv, StructOk;
    var i :| 0 <= i < |ids| && LeafIs(ids, v, i, leaf, rightmost, least, greatest, count);
    InvStruct(v);
    LevelZero(v, i);
    assert LeafThen(shapes[epoch], i, leaf, least, greatest, false);
    assert rightmost ==> LeafThen(shapes[epoch], i, leaf, greatest, greatest, true);
  }

  // ---------------------------------------------------------------------
  // Handles
  // ---------------------------------------------------------------------

  class Handle<V> {
    const tree: DiskTree<V>
    var rootBlock: nat
    var fast: Option<FastLeaf>
    var range: Option<RangeLeaf>

    /** What was recorded was true when it was recorded. */
    ghost predicate CachesOk()
      reads this, tree
    {
      && FastOk(tree.shapes, fast) && RangeOk(tree.shapes, range)
      && (tree.rootCell.None? ==> rootBlock == tree.home)
    }

    /** A live handle on a root: the original one, or any once the root is in the root cell. */
    constructor (tree: DiskTree<V>, rootBlock: nat)
      requires tree.rootCell.None? ==> rootBlock == tree.home
      ensures this.tree == tree && CachesOk() && fast == None && range == None
    {
      this.tree, this.rootBlock := tree, rootBlock;
      fast, range := None, None;
    }

    /** The root this handle reads from is the root of the live tree. */
    method ViewRoot() returns (root: nat)
      requires CachesOk()
      ensures root == tree.RootNow()
    {
      root := if tree.rootCell.Some? then tree.rootCell.value else rootBlock;
    }

    /** In-place update through the range cache. */
    method TryUpdate(key: Key, value: V) returns (done: bool)
      requires CachesOk()
      requires tree.Valid()
      modifies this, tree
      ensures done ==> tree.view.model == old(tree.view.model)[key := value]
      ensures !done ==> tree.view == old(tree.view) && tree.st == old(tree.st)
      ensures SteadyBut(old(tree.shapes), old(tree.rootCell), old(tree.barrier), old(tree.clean), old(tree.pasts))
      ensures Anchored(old(tree.view)) ==> Anchored(tree.view)
      ensures tree.Cow() ==> FrozenKept(old(tree.st), tree.st, tree.barrier)
      ensures CachesOk()
      ensures tree.Valid()
    {
      hide Inv, Plain, Rep, HeadersOk, LinksOk, HistoryOk, FrozenKept, ShapeFits, SizesBut, In, Applied, Recorded, Anchored;
      done := false;
      KeptSelf(tree.st, tree.barrier);
      if range.None? { return; }
      var rl := range.value;
      if !(key >= rl.minKey && key <= rl.maxKey && rl.count > 0 && rl.epoch == tree.epoch) { return; }
      if rl.block in tree.st {
        var node := tree.st[rl.block];
        if node.level == 0 && |node.items| == rl.count {
          var frozen := tree.barrier > 0 && tree.frozenType && node.gen <= tree.barrier;
          if !frozen {
            ghost var i := StillThere(tree.shapes, rl.epoch, rl.block, rl.minKey, rl.maxKey, false, tree.st, tree.ids, tree.view, tree.Cow(), tree.barrier, key);
            LeafSorted(tree.view, i);
            var found, pos := EntryPosition(node.items, key);
            if found {
              var items := node.items[pos := Entry(key, value)];
              ReplaceApplied(node.items, pos, value);
              LinkAt(tree.st, rl.block);
              SizeOfNode(tree.view, tree.maxLeaf, tree.maxInner, i);
              if Anchored(tree.view) { PutAnchored(tree.view, i, key, value, items); }
              tree.PutItems(rl.block, node, items, i, key, Upsert(value));
              done := true;
              return;
            }
          }
        }
      }
      range := None;
    }

    /** The tree kept its shapes, root, barrier and history. */
    ghost predicate SteadyBut(shapes: seq<Shape>, rootCell: Option<nat>, barrier: nat, clean: bool, pasts: seq<Past<V>>)
      reads this, tree
    {
      tree.shapes == shapes && tree.rootCell == rootCell && tree.barrier == barrier && tree.clean == clean && tree.pasts == pasts
    }

    /** Writes a leaf with one more item at its end. */
    method AppendAt(block: nat, node: DNode<V>, key: Key, value: V, ghost i: nat)
      requires i < |tree.ids| == |tree.view.n| == |tree.view.g| && tree.ids[i] == block && tree.view.n[i].Leaf? && In(tree.view.g[i], key)
      requires block in tree.st && node == tree.st[block] && node.level == 0 && node.items == tree.view.n[i].entries
      requires 0 < |node.items| < tree.maxLeaf - 1 && node.items[|node.items| - 1].key < key && (tree.Cow() ==> node.gen > tree.barrier)
      requires tree.Valid()
      modifies tree`st, tree`gen, tree`view
      ensures tree.view.model == old(tree.view.model)[key := value]
      ensures Anchored(old(tree.view)) ==> Anchored(tree.view)
      ensures tree.Cow() ==> FrozenKept(old(tree.st), tree.st, tree.barrier)
      ensures tree.Valid()
    {
      hide Inv, Plain, Rep, HeadersOk, LinksOk, HistoryOk, FrozenKept, ShapeFits, SizesBut, In, Applied, Anchored;
      LeafSorted(tree.view, i);
      var items := node.items + [Entry(key, value)];
      AppendApplied(node.items, key, value);
      LinkAt(tree.st, block);
      if Anchored(tree.view) { PutAnchored(tree.view, i, key, value, items); }
      tree.PutItems(block, node, items, i, key, Upsert(value));
    }

    /** Append through the cache of the rightmost leaf. */
    method TryAppend(key: Key, value: V) returns (done: bool)
      requires CachesOk()
      requires tree.Valid()
      modifies this, tree
      ensures done ==> tree.view.model == old(tree.view.model)[key := value]
      ensures !done ==> tree.view == old(tree.view) && tree.st == old(tree.st)
      ensures SteadyBut(old(tree.shapes), old(tree.rootCell), old(tree.barrier), old(tree.clean), old(tree.pasts))
      ensures Anchored(old(tree.view)) ==> Anchored(tree.view)
      ensures tree.Cow() ==> FrozenKept(old(tree.st), tree.st, tree.barrier)
      ensures CachesOk()
      ensures tree.Valid()
    {
      hide Inv, Plain, Rep, HeadersOk, LinksOk, HistoryOk, FrozenKept, ShapeFits, SizesBut, In, Applied, Recorded, Anchored;
      done := false;
      KeptSelf(tree.st, tree.barrier);
      if fast.None? { return; }
      var fl := fast.value;
      if !(key > fl.lastKey && fl.count > 0 && fl.count < tree.maxLeaf - 1 && fl.epoch == tree.epoch) { return; }
      if fl.block in tree.st {
        var node := tree.st[fl.block];
        if node.level == 0 && |node.items| == fl.count {
          var frozen := tree.barrier > 0 && tree.frozenType && node.gen <= tree.barrier;
          if node.items[fl.count - 1].key == fl.lastKey && !frozen {
            ghost var i := StillThere(tree.shapes, fl.epoch, fl.block, fl.lastKey, fl.lastKey, true, tree.st, tree.ids, tree.view, tree.Cow(), tree.barrier, key);
            AppendAt(fl.block, node, key, value, i);
            AppendRecorded(tree.shapes, fl.epoch, fl.block, fl.lastKey, key);
            fast := Some(FastLeaf(fl.block, key, fl.count + 1, fl.epoch));
            done := true;
            return;
          }
        }
      }
      fast := None;
    }

    /** Sets the value of a key, by a cached leaf if one can be trusted, else by a descent. */
    method Insert(key: Key, value: V)
      requires CachesOk()
      requires tree.Valid()
      modifies this, tree
      ensures tree.view.model == old(tree.view.model)[key := value] && Grew(old(tree.shapes), tree.shapes)
      ensures tree.barrier == old(tree.barrier) && tree.pasts == old(tree.pasts)
      ensures Anchored(old(tree.view)) ==> Anchored(tree.view)
      ensures (tree.clean ==> old(tree.clean)) && (old(tree.clean) && !(tree.Cow() && CrowdedAt(old(tree.view), key, tree.maxLeaf, tree.maxInner)) ==> tree.clean)
      ensures tree.Cow() && tree.clean ==> FrozenKept(old(tree.st), tree.st, tree.barrier)
      ensures if tree.Cow() then tree.rootCell.None? ==> old(tree.rootCell).None? else tree.rootCell == old(tree.rootCell)
      ensures CachesOk()
      ensures tree.Valid()
    {
      hide Inv, Plain, Rep, Recorded, Anchored, Grew, CrowdedAt, FrozenKept, DiskTree.Valid, FastOk, RangeOk;
      GrewSelf(tree.shapes);
      var done := TryUpdate(key, value);
      if done { return; }
      done := TryAppend(key, value);
      if done { return; }
      Descend(key, value);
    }

    /** Sets the value of a key by a descent, and records the leaf it went to. */
    method Descend(key: Key, value: V)
      requires CachesOk()
      requires tree.Valid()
      modifies this, tree
      ensures tree.view.model == old(tree.view.model)[key := value] && Grew(old(tree.shapes), tree.shapes)
      ensures tree.barrier == old(tree.barrier) && tree.pasts == old(tree.pasts)
      ensures Anchored(old(tree.view)) ==> Anchored(tree.view)
      ensures (tree.clean ==> old(tree.clean)) && (old(tree.clean) && !(tree.Cow() && CrowdedAt(old(tree.view), key, tree.maxLeaf, tree.maxInner)) ==> tree.clean)
      ensures tree.Cow() && tree.clean ==> FrozenKept(old(tree.st), tree.st, tree.barrier)
      ensures if tree.Cow() then tree.rootCell.None? ==> old(tree.rootCell).None? else tree.rootCell == old(tree.rootCell)
      ensures CachesOk()
      ensures tree.Valid()
    {
      hide Inv, Plain, Rep, Recorded, Anchored, Grew, CrowdedAt, FrozenKept, DiskTree.Valid, SizesBut, ShapeFits, HeadersOk, LinksOk, HistoryOk, FastOk, RangeOk, SmallAt;
      tree.Unpack();
      Roomy(tree.st, tree.ids, tree.view, tree.maxLeaf, tree.maxInner, key);
      ghost var sh0 := tree.shapes;
      var leaf, rightmost, least, greatest, count, split := tree.InsertAt(key, value, tree.maxLeaf);
      rootBlock := tree.RootNow();
      tree.Unpack();
      RepSizes(tree.st, tree.ids, tree.view);
      JustRecorded(tree.shapes, tree.epoch, tree.st, tree.ids, tree.view, tree.Cow(), tree.barrier, leaf, rightmost, least, greatest, count);
      if split {
        fast := None;
      }
      if rightmost {
        fast := Some(FastLeaf(leaf, greatest, count, tree.epoch));
      }
      range := Some(RangeLeaf(leaf, least, greatest, count, tree.epoch));
      NewCaches(tree.shapes, sh0, old(fast), leaf, rightmost, least, greatest, count, tree.epoch);
    }

    /** Removes a key and drops both caches. */
    method Remove(key: Key) returns (found: bool)
      requires CachesOk()
      requires tree.Valid()
      modifies this, tree
      ensures found <==> key in old(tree.view.model)
      ensures tree.view.model == old(tree.view.model) - {key} && Grew(old(tree.shapes), tree.shapes)
      ensures tree.barrier == old(tree.barrier) && tree.clean == old(tree.clean) && tree.pasts == old(tree.pasts)
      ensures tree.Cow() ==> FrozenKept(old(tree.st), tree.st, tree.barrier)
      ensures if tree.Cow() then tree.rootCell.None? ==> old(tree.rootCell).None? else tree.rootCell == old(tree.rootCell)
      ensures CachesOk()
      ensures tree.Valid()
    {
      hide Recorded, Grew, FrozenKept, DiskTree.Valid;
      fast, range := None, None;
      found := tree.Remove(key);
      rootBlock := tree.RootNow();
    }

    /** Looks a key up by a descent from this handle's root. */
    method Lookup(key: Key) returns (r: Option<V>)
      requires CachesOk()
      requires tree.Valid()
      ensures r == Get(tree.view.model, key)
    {
      hide Inv, Plain, Rep, Recorded, DiskTree.Valid;
      tree.Unpack();
      RepSizes(tree.st, tree.ids, tree.view);
      var root := ViewRoot();
      r := tree.LookupUnder(root, key, tree.ids, tree.view);
    }
  }

  // ---------------------------------------------------------------------
  // Many handles
  // ---------------------------------------------------------------------

  /** One call, through handle number h, or activity in the other trees. */
  datatype Step<V> =
    | Insert(h: nat, key: Key, value: V)
    | Remove(h: nat, key: Key)
    | Lookup(h: nat, key: Key)
    | Elsewhere(stamps: nat, blocks: nat, reshaped: bool)

  datatype Answer<V> = Done | Removed(found: bool) | Value(value: Option<V>)

  function Next<V>(model: map<Key, V>, step: Step<V>): map<Key, V>
  {
    match step
    case Insert(_, key, value) => model[key := value]
    case Remove(_, key) => model - {key}
    case Lookup(_, _) => model
    case Elsewhere(_, _, _) => model
  }

  function AnswerOf<V>(model: map<Key, V>, step: Step<V>): Answer<V>
  {
    match step
    case Insert(_, _, _) => Done
    case Remove(_, key) => Removed(key in model)
    case Lookup(_, key) => Value(Get(model, key))
    case Elsewhere(_, _, _) => Done
  }

  /** A plain map under the same calls. */
  function After<V>(model: map<Key, V>, steps: seq<Step<V>>): map<Key, V>
  {
    if steps == [] then model else Next(After(model, steps[..|steps| - 1]), steps[|steps| - 1])
  }

  function Answers<V>(model: map<Key, V>, steps: seq<Step<V>>): seq<Answer<V>>
  {
    if steps == [] then [] else Answers(model, steps[..|steps| - 1]) + [AnswerOf(After(model, steps[..|steps| - 1]), steps[|steps| - 1])]
  }

  ghost predicate AllOn<V>(handles: seq<Handle<V>>, tree: DiskTree<V>)
  {
    forall h :: 0 <= h < |handles| ==> handles[h].tree == tree
  }

  ghost predicate AllOk<V>(handles: seq<Handle<V>>, tree: DiskTree<V>)
    requires AllOn(handles, tree)
    reads tree, set h | h in handles
  {
    forall h :: 0 <= h < |handles| ==> handles[h].CachesOk()
  }

  /** The call splits an inner node, or may: it inserts where leaf and parent are full, under a barrier. */
  ghost predicate Spoils<V>(v: View<V>, step: Step<V>, cow: bool, maxLeaf: nat, maxInner: nat)
  {
    cow && step.Insert? && CrowdedAt(v, step.key, maxLeaf, maxInner)
  }

  /** Any schedule of calls through any handles answers as one plain map would, whatever each handle has cached.
      If no call on the way spoils it, nothing behind the barrier has changed. Under a barrier this is about a tree
      that finds itself, RootCells.FindsItselfExactly. */
  method Drive<V>(tree: DiskTree<V>, handles: seq<Handle<V>>, steps: seq<Step<V>>) returns (answers: seq<Answer<V>>, ghost views: seq<View<V>>)
    requires forall x :: 0 <= x < |steps| && !steps[x].Elsewhere? ==> steps[x].h < |handles|
    requires AllOn(handles, tree) && AllOk(handles, tree) && tree.Valid()
    modifies tree, set h | h in handles
    ensures answers == Answers(old(tree.view.model), steps)
    ensures tree.view.model == After(old(tree.view.model), steps)
    ensures tree.barrier == old(tree.barrier) && tree.pasts == old(tree.pasts) && (!tree.Cow() ==> tree.RootNow() == old(tree.RootNow()))
    ensures |views| == |steps| + 1 && forall x :: 0 <= x <= |steps| ==> views[x].model == After(old(tree.view.model), steps[..x])
    ensures old(tree.clean) && (forall x :: 0 <= x < |steps| ==> !Spoils(views[x], steps[x], tree.Cow(), tree.maxLeaf, tree.maxInner)) ==> tree.clean
    ensures tree.Cow() && tree.clean ==> FrozenKept(old(tree.st), tree.st, tree.barrier)
    ensures AllOk(handles, tree) && tree.Valid()
  {
    hide DiskTree.Valid, AllOk, Next, AnswerOf, FrozenKept, Spoils;
    answers, views := [], [tree.view];
    KeptSelf(tree.st, tree.barrier);
    for x := 0 to |steps|
      invariant answers == Answers(old(tree.view.model), steps[..x])
      invariant |views| == x + 1 && views[x] == tree.view && forall y :: 0 <= y <= x ==> views[y].model == After(old(tree.view.model), steps[..y])
      invariant tree.barrier == old(tree.barrier) && tree.pasts == old(tree.pasts) && (!tree.Cow() ==> tree.rootCell == old(tree.rootCell))
      invariant old(tree.clean) && (forall y :: 0 <= y < x ==> !Spoils(views[y], steps[y], tree.Cow(), tree.maxLeaf, tree.maxInner)) ==> tree.clean
      invariant tree.Cow() && tree.clean ==> FrozenKept(old(tree.st), tree.st, tree.barrier)
      invariant AllOk(handles, tree) && tree.Valid()
    {
      ghost var s0 := tree.st;
      assert steps[..x + 1][..x] == steps[..x];
      var answer := Take(tree, handles, steps[x]);
      answers, views := answers + [answer], views + [tree.view];
      if tree.Cow() && tree.clean { KeptTrans(old(tree.st), s0, tree.st, tree.barrier); }
    }
    assert steps[..|steps|] == steps;
  }

  /** One call. */
  method Take<V>(tree: DiskTree<V>, handles: seq<Handle<V>>, step: Step<V>) returns (answer: Answer<V>)
    requires !step.Elsewhere? ==> step.h < |handles|
    requires AllOn(handles, tree) && AllOk(handles, tree) && tree.Valid()
    modifies tree, set h | h in handles
    ensures answer == AnswerOf(old(tree.view.model), step) && tree.view.model == Next(old(tree.view.model), step)
    ensures tree.barrier == old(tree.barrier) && tree.pasts == old(tree.pasts) && (!tree.Cow() ==> tree.rootCell == old(tree.rootCell))
    ensures (tree.clean ==> old(tree.clean)) && (old(tree.clean) && !Spoils(old(tree.view), step, tree.Cow(), tree.maxLeaf, tree.maxInner) ==> tree.clean)
    ensures tree.Cow() && tree.clean ==> FrozenKept(old(tree.st), tree.st, tree.barrier)
    ensures AllOk(handles, tree) && tree.Valid()
  {
    hide DiskTree.Valid, Grew, FrozenKept, Anchored, CrowdedAt, FastOk, RangeOk, Get;
    ghost var sh0 := tree.shapes;
    GrewSelf(sh0);
    KeptSelf(tree.st, tree.barrier);
    answer := Done;
    match step {
      case Insert(h, key, value) => handles[h].Insert(key, value);
      case Remove(h, key) =>
        var found := handles[h].Remove(key);
        answer := Removed(found);
      case Lookup(h, key) =>
        var value := handles[h].Lookup(key);
        answer := Value(value);
      case Elsewhere(stamps, blocks, reshaped) => tree.Elsewhere(stamps, blocks, reshaped);
    }
    forall k | 0 <= k < |handles| ensures handles[k].CachesOk() {
      if step.Elsewhere? || handles[k] != handles[step.h] { CachesGrow(sh0, tree.shapes, handles[k].fast, handles[k].range); }
    }
  }

  ghost predicate FastOk(shapes: seq<Shape>, fast: Option<FastLeaf>)
  {
    match fast
    case None => true
    case Some(fl) => Recorded(shapes, fl.epoch, fl.block, fl.lastKey, fl.lastKey, true)
  }

  ghost predicate RangeOk(shapes: seq<Shape>, range: Option<RangeLeaf>)
  {
    match range
    case None => true
    case Some(rl) => Recorded(shapes, rl.epoch, rl.block, rl.minKey, rl.maxKey, false)
  }

  lemma CachesGrow(a: seq<Shape>, b: seq<Shape>, fast: Option<FastLeaf>, range: Option<RangeLeaf>)
    requires Grew(a, b) && FastOk(a, fast) && RangeOk(a, range)
    ensures FastOk(b, fast) && RangeOk(b, range)
  {
    hide Grew, Recorded;
    if fast.Some? { RecordedForever(a, b, fast.value.epoch, fast.value.block, fast.value.lastKey, fast.value.lastKey, true); }
    if range.Some? { RecordedForever(a, b, range.value.epoch, range.value.block, range.value.minKey, range.value.maxKey, false); }
  }

  lemma NewCaches(shapes: seq<Shape>, before: seq<Shape>, fast: Option<FastLeaf>, leaf: nat, rightmost: bool, least: Key, greatest: Key, count: nat, epoch: nat)
    requires Grew(before, shapes) && FastOk(before, fast)
    requires Recorded(shapes, epoch, leaf, least, greatest, false) && (rightmost ==> Recorded(shapes, epoch, leaf, greatest, greatest, true))
    ensures FastOk(shapes, fast) && FastOk(shapes, None) && (rightmost ==> FastOk(shapes, Some(FastLeaf(leaf, greatest, count, epoch))))
    ensures RangeOk(shapes, Some(RangeLeaf(leaf, least, greatest, count, epoch)))
  {
    hide Grew, Recorded;
    CachesGrow(before, shapes, fast, None);
  }

  lemma Roomy<V>(st: Store<V>, ids: seq<nat>, v: View<V>, maxLeaf: nat, maxInner: nat, key: Key)
    requires SizesBut(v, maxLeaf, maxInner, {}) && Rep(st, ids, v)
    ensures SmallAt(v, key, maxLeaf)
  {
    forall i | 0 <= i < |v.n| && v.n[i].Leaf? && In(v.g[i], key) ensures |v.n[i].entries| <= maxLeaf { assert SizeWithin(v.n[i], maxLeaf, maxInner); }
  }

  lemma LinkAt<V>(st: Store<V>, b: nat)
    requires LinksOk(st) && b in st
    ensures st[b].prev == 0 || st[b].prev in st
  {
  }

  lemma AppendApplied<V>(es: seq<Entry<V>>, key: Key, value: V)
    requires Sorted(es) && |es| > 0 && es[|es| - 1].key < key
    ensures Applied(es, key, Upsert(value), es + [Entry(key, value)])
  {
    InsertApplied(es, |es|, key, value);
    assert es[..|es|] + [Entry(key, value)] + es[|es|..] == es + [Entry(key, value)];
  }

  lemma AppendRecorded(shapes: seq<Shape>, epoch: nat, block: nat, lastKey: Key, key: Key)
    requires Recorded(shapes, epoch, block, lastKey, lastKey, true) && lastKey < key
    ensures Recorded(shapes, epoch, block, key, key, true)
  {
    var i :| LeafThen(shapes[epoch], i, block, lastKey, lastKey, true);
    assert LeafThen(shapes[epoch], i, block, key, key, true);
  }
}
