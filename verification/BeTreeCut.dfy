/** From the arena a split writes to the split step: where the new bound lies,
    which children change parent, and how entries and messages are divided. */
module BeTreeCut {
  import opened Options
  import opened BeTreeModel
  import opened BeTreeMessages
  import opened BeTreeContent
  import opened BeTreeSplit
  import opened BeTreeState

  ghost predicate InRight(cs: seq<Child>, mid: nat, c: nat)
  {
    exists x :: mid <= x < |cs| && cs[x].id == c
  }

  /** Number mid of a node's children or entries is not the first, and starts at b. */
  predicate BoundAt<V>(x: Node<V>, mid: nat, b: Key)
  {
    match x
    case Internal(_, cs, _) => 0 < mid < |cs| && cs[mid].bound == Some(b)
    case Leaf(_, es) => 0 < mid < |es| && es[mid].key == b
  }

  /** The arena after node id was divided before its child or entry number mid; both
      halves hang below node `above`. */
  ghost predicate CutAt<V>(n: Arena<V>, id: nat, b: Key, mid: nat, above: nat, n': Arena<V>)
    requires id < |n| < |n'|
  {
    && BoundAt(n[id], mid, b)
    && (match n[id]
        case Internal(_, cs, buf) =>
          && n'[id] == Internal(Some(above), cs[..mid], Below(buf, b))
          && n'[|n|] == Internal(Some(above), cs[mid..], AtLeast(buf, b))
        case Leaf(_, es) =>
          && n'[id] == Leaf(Some(above), es[..mid])
          && n'[|n|] == Leaf(Some(above), es[mid..]))
    && forall c :: 0 <= c < |n| && c != id && c != above ==>
         n'[c] == if InRight(Kids(n[id]), mid, c) then WithParent(n[c], Some(|n|)) else n[c]
  }

  ghost predicate CutUnder<V>(n: Arena<V>, id: nat, b: Key, mid: nat, p: nat, j: nat, n': Arena<V>)
    requires id < |n|
  {
    && |n'| == |n| + 1 && p < |n| && p != id
    && CutAt(n, id, b, mid, p, n')
    && n[p].Internal? && j < |n[p].children| && n[p].children[j].id == id
    && n'[p] == Internal(n[p].parent, n[p].children[..j + 1] + [Child(Some(b), |n|)] + n[p].children[j + 1..], n[p].buffer)
  }

  ghost predicate CutRoot<V>(n: Arena<V>, id: nat, b: Key, mid: nat, n': Arena<V>)
    requires id < |n|
  {
    && |n'| == |n| + 2
    && CutAt(n, id, b, mid, |n| + 1, n')
    && n'[|n| + 1] == Internal(None, [Child(None, id), Child(Some(b), |n|)], [])
  }

  /** The regions after the cut. */
  function CutRegions(g: Map, id: nat, b: Key): Map
    requires id < |g|
  {
    g[id := g[id].(hi := Some(b))] + [Region(g[id].level, Some(b), g[id].hi)]
  }

  function KidMid<V>(x: Node<V>, mid: nat): nat
  {
    if x.Leaf? then 0 else mid
  }

  // ---------------------------------------------------------------------
  // The bound lies inside the region
  // ---------------------------------------------------------------------

  lemma ChildBoundCuts<V>(n: Arena<V>, g: Map, root: nat, id: nat, mid: nat)
    requires StructOk(n, g, root) && id < |n| && n[id].Internal? && 0 < mid < |n[id].children|
    ensures n[id].children[mid].bound.Some? && Cuts(g[id], n[id].children[mid].bound.value)
  {
    var cs := n[id].children;
    assert Kids(n[id]) == cs;
    assert NodeOk(n, g, root, id);
    BoundsIncrease(n, g, root, id, 0, mid);
    assert ChildOk(n, g, id, mid);
    var c := cs[mid].id;
    assert NodeOk(n, g, root, c);
    assert ParentOk(n, g, c, id);
  }

  lemma EntryKeyCuts<V>(r: Region, es: seq<Entry<V>>, mid: nat)
    requires LeafOk(r, es) && 0 < mid < |es|
    ensures Cuts(r, es[mid].key)
  {
    assert es[0] in es && es[mid] in es;
  }

  lemma CutsInside<V>(s: View<V>, id: nat, b: Key, mid: nat)
    requires Inv(s) && id < |s.n| && BoundAt(s.n[id], mid, b)
    ensures Cuts(s.g[id], b)
  {
    hide NodeOk, ChildOk, MsgInv;
    if s.n[id].Internal? {
      ChildBoundCuts(s.n, s.g, s.root, id, mid);
    } else {
      assert LeafOk(s.g[id], s.n[id].entries);
      EntryKeyCuts(s.g[id], s.n[id].entries, mid);
    }
  }

  // ---------------------------------------------------------------------
  // Parents of the other nodes
  // ---------------------------------------------------------------------

  lemma MovedToRight<V>(n: Arena<V>, g: Map, root: nat, id: nat, b: Key, mid: nat, c: nat)
    requires StructOk(n, g, root) && id < |n| && c < |n| && c != id
    requires n[id].Internal? ==> 0 < mid < |n[id].children| && n[id].children[mid].bound == Some(b)
    ensures InRight(Kids(n[id]), mid, c) <==> (n[c].parent == Some(id) && g[c].lo.Some? && g[c].lo.value >= b)
  {
    var cs := Kids(n[id]);
    assert NodeOk(n, g, root, c) && NodeOk(n, g, root, id);
    if n[id].Internal? {
      if InRight(cs, mid, c) {
        var x :| mid <= x < |cs| && cs[x].id == c;
        ChildSide(n, g, root, id, b, mid, x);
      }
      if n[c].parent == Some(id) && g[c].lo.Some? && g[c].lo.value >= b {
        var x := ChildIndex(n, g, root, c);
        ChildSide(n, g, root, id, b, mid, x);
        assert cs[x].id == c;
      }
    }
  }

  lemma RestIsKept<V>(n: Arena<V>, g: Map, root: nat, id: nat, b: Key, mid: nat, above: nat, n': Arena<V>, i: nat)
    requires StructOk(n, g, root) && id < |n| < |n'| && CutAt(n, id, b, mid, above, n') && i < |n| && i != id && i != above
    ensures RestKept(n, g, id, b, i, n')
    ensures Buffer(n'[i]) == Buffer(n[i]) && Entries(n'[i]) == Entries(n[i])
  {
    hide StructOk, InRight, Below, AtLeast;
    MovedToRight(n, g, root, id, b, mid, i);
  }

  lemma Payload<V>(n: Arena<V>, g: Map, root: nat, id: nat, b: Key, mid: nat, above: nat, n': Arena<V>)
    requires StructOk(n, g, root) && id < |n| < |n'| && CutAt(n, id, b, mid, above, n')
    requires n[id].Leaf? ==> Sorted(n[id].entries)
    requires above < |n| ==> above != id && n[above].Internal? && n'[above].Internal? && Buffer(n'[above]) == Buffer(n[above])
    requires forall i :: |n| < i < |n'| ==> n'[i].Internal? && Buffer(n'[i]) == []
    ensures EntriesCut(n, id, b, n') && BuffersCut(n, id, b, n')
  {
    hide StructOk, Sorted;
    forall i | 0 <= i < |n| && i != id && i != above
      ensures (n'[i].Leaf? <==> n[i].Leaf?) && Buffer(n'[i]) == Buffer(n[i]) && Entries(n'[i]) == Entries(n[i])
    {
      RestIsKept(n, g, root, id, b, mid, above, n', i);
    }
    if n[id].Leaf? {
      EntrySides(n[id].entries, mid);
      assert n[id].entries == n[id].entries[..mid] + n[id].entries[mid..];
    }
  }

  lemma EntrySides<V>(es: seq<Entry<V>>, mid: nat)
    requires Sorted(es) && mid < |es|
    ensures forall e :: e in es[..mid] ==> e.key < es[mid].key
    ensures forall e :: e in es[mid..] ==> es[mid].key <= e.key
  {
  }

  // ---------------------------------------------------------------------
  // The step
  // ---------------------------------------------------------------------

  lemma CutUnderIsSplit<V>(s: View<V>, s': View<V>, id: nat, b: Key, mid: nat, p: nat, j: nat)
    requires Inv(s) && id < |s.n| && s.n[id].parent == Some(p) && CutUnder(s.n, id, b, mid, p, j, s'.n)
    requires s'.g == CutRegions(s.g, id, b) && s'.root == s.root && s'.hand == s.hand + [[]]
    requires s'.bag == s.bag && s'.model == s.model
    ensures SplitStep(s, s', id, b, KidMid(s.n[id], mid))
  {
    hide StructOk, MsgInv, Below, AtLeast, InRight, EntriesCut, BuffersCut, RestKept, Sorted;
    CutsInside(s, id, b, mid);
    assert s.n[id].Leaf? ==> LeafOk(s.g[id], s.n[id].entries);
    assert |s.n| == |s.g|;
    hide ContentInv;
    Payload(s.n, s.g, s.root, id, b, mid, p, s'.n);
    forall i | 0 <= i < |s.n| && i != id && i != p ensures RestKept(s.n, s.g, id, b, i, s'.n) {
      RestIsKept(s.n, s.g, s.root, id, b, mid, p, s'.n, i);
    }
    assert s'.g[..|s.g|] == s.g[id := s.g[id].(hi := Some(b))];
    assert SplitUnder(s.n, s.g, id, p, j, b, KidMid(s.n[id], mid), s'.n, s'.g);
    assert s'.hand == s.hand + seq(|s'.n| - |s.n|, i => []);
  }

  lemma CutRootIsSplit<V>(s: View<V>, s': View<V>, id: nat, b: Key, mid: nat)
    requires Inv(s) && id < |s.n| && s.n[id].parent == None && CutRoot(s.n, id, b, mid, s'.n)
    requires s'.g == CutRegions(s.g, id, b) + [Region(s.g[id].level + 1, None, None)]
    requires s'.root == |s.n| + 1 && s'.hand == s.hand + [[], []]
    requires s'.bag == s.bag && s'.model == s.model
    ensures SplitStep(s, s', id, b, KidMid(s.n[id], mid))
  {
    hide StructOk, MsgInv, Below, AtLeast, InRight, EntriesCut, BuffersCut, RestKept, Sorted;
    CutsInside(s, id, b, mid);
    assert s.n[id].Leaf? ==> LeafOk(s.g[id], s.n[id].entries);
    assert |s.n| == |s.g|;
    hide ContentInv;
    Payload(s.n, s.g, s.root, id, b, mid, |s.n| + 1, s'.n);
    forall i | 0 <= i < |s.n| && i != id ensures RestKept(s.n, s.g, id, b, i, s'.n) {
      RestIsKept(s.n, s.g, s.root, id, b, mid, |s.n| + 1, s'.n, i);
    }
    assert s'.g[..|s.g|] == s.g[id := s.g[id].(hi := Some(b))];
    assert s'.hand == s.hand + seq(|s'.n| - |s.n|, i => []);
  }

  /** The place of a new bound in the parent's child list is right after the node it was cut from. */
  lemma InsertPosition<V>(n: Arena<V>, g: Map, root: nat, id: nat, p: nat, j: nat, b: Key, pos: nat)
    requires StructOk(n, g, root) && id < |n| && p < |n| && n[p].Internal? && j < |n[p].children| && n[p].children[j].id == id
    requires Cuts(g[id], b) && pos <= |n[p].children|
    requires forall x :: 0 <= x < pos ==> n[p].children[x].bound.None? || n[p].children[x].bound.value < b
    requires forall x :: pos <= x < |n[p].children| ==> n[p].children[x].bound.Some? && b <= n[p].children[x].bound.value
    ensures pos == j + 1
  {
    var cs := n[p].children;
    assert Kids(n[p]) == cs;
    assert ChildOk(n, g, p, j);
    if j + 1 < |cs| { assert ChildOk(n, g, p, j + 1); }
  }

  // ---------------------------------------------------------------------
  // Everything a split keeps
  // ---------------------------------------------------------------------

  lemma SplitDone<V>(s: View<V>, s': View<V>, id: nat, b: Key, mid: nat, h: nat)
    requires Inv(s) && id < |s.n| && s.hand[id] == [] && SplitStep(s, s', id, b, mid)
    requires h > s.g[id].level || Buffer(s.n[id]) == []
    ensures Inv(s') && |s'.n| == |s'.g| == |s'.hand| && Evolves(s, s') && Calm(s, s', h) && SameBelow(s, s', s.g[id].level)
    ensures s.n[id].parent.Some? ==> FixedAbove(s, s', s.g[id].level) && |s'.n| == |s.n| + 1
    ensures |s'.g| > |s.g| && s'.g[|s.g|].level == s.g[id].level && Within(s'.g[|s.g|], s.g[id])
    ensures Buffered(s'.n) == Buffered(s.n) && Stored(s'.n) == Stored(s.n)
    ensures forall i :: |s.hand| <= i < |s'.hand| ==> s'.hand[i] == []
  {
    hide Inv, SplitStep, Buffered, Stored, SameBelow, Evolves, Calm, FixedAbove;
    InvSizes(s);
    SplitKeeps(s, s', id, b, mid);
    InvSizes(s');
    SplitFrame(s, s', id, b, mid, h);
    assert StructOk(s.n, s.g, s.root) by { InvStruct(s); }
    SplitBelow(s, s', id, b, mid);
  }

  lemma InvStruct<V>(s: View<V>)
    requires Inv(s)
    ensures StructOk(s.n, s.g, s.root)
  {
  }

  function Size<V>(x: Node<V>): nat
  {
    if x.Internal? then |x.children| else |x.entries|
  }

  /** Halves of an overfull node: the left one is within its limits, the right one
      has the rest, and the parent has one child more. */
  lemma CutUnderLimits<V>(n: Arena<V>, c: Config, over: set<nat>, id: nat, b: Key, mid: nat, p: nat, j: nat, n': Arena<V>)
    requires ConfigOk(c) && Limits(n, c, over) && id < |n| && CutUnder(n, id, b, mid, p, j, n')
    requires mid == (if n[id].Internal? then c.maxChildren else c.leafMaxEntries) / 2 + 1
    requires Size(n[id]) > if n[id].Internal? then c.maxChildren else c.leafMaxEntries
    ensures Limits(n', c, over - {id} + {|n|, p})
    ensures Size(n'[|n|]) == Size(n[id]) - mid && Size(n'[p]) == Size(n[p]) + 1 && n'[p].Internal?
  {
    hide InRight;
    assert SizeOk(n[id], c, id in over) && SizeOk(n[p], c, p in over);
    CutLength(Buffer(n[id]), b);
    forall i | 0 <= i < |n'| ensures SizeOk(n'[i], c, i in over - {id} + {|n|, p}) {
      if i < |n| { assert SizeOk(n[i], c, i in over); }
    }
  }

  lemma CutRootLimits<V>(n: Arena<V>, c: Config, over: set<nat>, id: nat, b: Key, mid: nat, n': Arena<V>)
    requires ConfigOk(c) && Limits(n, c, over) && id < |n| && CutRoot(n, id, b, mid, n')
    requires mid == (if n[id].Internal? then c.maxChildren else c.leafMaxEntries) / 2 + 1
    requires Size(n[id]) > if n[id].Internal? then c.maxChildren else c.leafMaxEntries
    ensures Limits(n', c, over - {id} + {|n|})
    ensures Size(n'[|n|]) == Size(n[id]) - mid
  {
    hide InRight;
    assert SizeOk(n[id], c, id in over);
    CutLength(Buffer(n[id]), b);
    forall i | 0 <= i < |n'| ensures SizeOk(n'[i], c, i in over - {id} + {|n|}) {
      if i < |n| { assert SizeOk(n[i], c, i in over); }
    }
  }

  lemma LimitsMono<V>(n: Arena<V>, c: Config, a: set<nat>, b: set<nat>)
    requires Limits(n, c, a)
    requires forall i :: i in a && i < |n| ==> i in b || SizeOk(n[i], c, false)
    ensures Limits(n, c, b)
  {
    forall i | 0 <= i < |n| ensures SizeOk(n[i], c, i in b) { assert SizeOk(n[i], c, i in a); }
  }
}
