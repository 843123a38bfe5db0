/** Splitting a node keeps the tree structure: the region is cut at a bound, the
    right half becomes a new node, and the parent gains one child (or a new root
    is grown above both halves). */
module BeTreeSplit {
  import opened Options
  import opened BeTreeModel

  /** Parent of node i once node id has been cut at b and r is its right half. */
  function NewParent<V>(n: Arena<V>, g: Map, id: nat, b: Key, r: nat, i: nat): Option<nat>
    requires i < |n| == |g|
  {
    if n[i].parent == Some(id) && g[i].lo.Some? && g[i].lo.value >= b then Some(r) else n[i].parent
  }

  /** Nodes other than those listed keep everything but possibly their parent. */
  ghost predicate RestKept<V>(n: Arena<V>, g: Map, id: nat, b: Key, i: nat, n': Arena<V>)
    requires i < |n| == |g| && |n| < |n'|
  {
    && (n'[i].Leaf? <==> n[i].Leaf?) && Kids(n'[i]) == Kids(n[i])
    && n'[i].parent == NewParent(n, g, id, b, |n|, i)
  }

  /** Node id is cut at b before its child number mid; the right half is node |n|. */
  ghost predicate Halved<V>(n: Arena<V>, g: Map, id: nat, b: Key, mid: nat, above: nat, n': Arena<V>, g': Map)
    requires id < |n| == |g| && |n| < |n'| == |g'|
  {
    && Cuts(g[id], b)
    && g'[..|g|] == g[id := g[id].(hi := Some(b))] && g'[|g|] == Region(g[id].level, Some(b), g[id].hi)
    && mid <= |Kids(n[id])|
    && Kids(n'[id]) == Kids(n[id])[..mid] && Kids(n'[|n|]) == Kids(n[id])[mid..]
    && (n'[id].Leaf? <==> n[id].Leaf?) && (n'[|n|].Leaf? <==> n[id].Leaf?)
    && n'[id].parent == Some(above) && n'[|n|].parent == Some(above)
    && (n[id].Internal? ==> 0 < mid < |Kids(n[id])| && Kids(n[id])[mid].bound == Some(b))
  }

  ghost predicate SplitUnder<V>(n: Arena<V>, g: Map, id: nat, p: nat, j: nat, b: Key, mid: nat, n': Arena<V>, g': Map)
    requires id < |n| == |g| && p < |n|
  {
    && |n'| == |n| + 1 == |g'|
    && Halved(n, g, id, b, mid, p, n', g')
    && n[p].Internal? && j < |n[p].children| && n[p].children[j].id == id
    && n'[p].Internal? && n'[p].parent == n[p].parent
    && n'[p].children == n[p].children[..j + 1] + [Child(Some(b), |n|)] + n[p].children[j + 1..]
    && forall i :: 0 <= i < |n| && i != id && i != p ==> RestKept(n, g, id, b, i, n')
  }

  // ---------------------------------------------------------------------
  // The two halves
  // ---------------------------------------------------------------------

  /** Children before the cut lie below it, children after it lie above. */
  lemma ChildSide<V>(n: Arena<V>, g: Map, root: nat, id: nat, b: Key, mid: nat, x: nat)
    requires StructOk(n, g, root) && id < |n| && n[id].Internal? && x < |Kids(n[id])| && mid < |Kids(n[id])|
    requires Kids(n[id])[mid].bound == Some(b) && 0 < mid
    ensures ChildOk(n, g, id, x)
    ensures var c := g[Kids(n[id])[x].id];
      if x < mid then (c.lo.Some? ==> c.lo.value < b) && c.hi.Some? && c.hi.value <= b
      else c.lo.Some? && c.lo.value >= b
  {
    assert ChildOk(n, g, id, x);
    if x < mid {
      BoundsIncrease(n, g, root, id, x, mid);
      assert ChildOk(n, g, id, x + 1);
      if x + 1 < mid { BoundsIncrease(n, g, root, id, x + 1, mid); }
    } else if x > mid {
      BoundsIncrease(n, g, root, id, mid, x);
    }
  }

  lemma HalvesKeepChildren<V>(n: Arena<V>, g: Map, root: nat, id: nat, b: Key, mid: nat, above: nat, n': Arena<V>, g': Map)
    requires StructOk(n, g, root) && id < |n| && |n| < |n'| == |g'| && Halved(n, g, id, b, mid, above, n', g')
    requires forall i :: 0 <= i < |n| && n[i].parent == Some(id) ==> RestKept(n, g, id, b, i, n')
    ensures forall x :: 0 <= x < |Kids(n'[id])| ==> ChildOk(n', g', id, x)
    ensures forall x :: 0 <= x < |Kids(n'[|n|])| ==> ChildOk(n', g', |n|, x)
  {
    var cs := Kids(n[id]);
    forall x | 0 <= x < |Kids(n'[id])| ensures ChildOk(n', g', id, x) {
      ChildSide(n, g, root, id, b, mid, x);
      var c := cs[x].id;
      assert RestKept(n, g, id, b, c, n');
      assert g'[c] == g'[..|g|][c];
    }
    forall x | 0 <= x < |Kids(n'[|n|])| ensures ChildOk(n', g', |n|, x) {
      ChildSide(n, g, root, id, b, mid, mid + x);
      var c := cs[mid + x].id;
      assert RestKept(n, g, id, b, c, n');
      assert g'[c] == g'[..|g|][c];
    }
  }

  /** A node that hangs below id before the cut hangs below one half after it. */
  lemma GrandchildOk<V>(n: Arena<V>, g: Map, root: nat, id: nat, b: Key, mid: nat, above: nat, n': Arena<V>, g': Map, root': nat, i: nat)
    requires StructOk(n, g, root) && id < |n| && |n| < |n'| == |g'| && Halved(n, g, id, b, mid, above, n', g')
    requires i < |n| && n[i].parent == Some(id) && RestKept(n, g, id, b, i, n') && i != id && i != root'
    ensures NodeOk(n', g', root', i)
  {
    assert NodeOk(n, g, root, i) && NodeOk(n, g, root, id);
    assert g'[i] == g'[..|g|][i];
    var x := ChildIndex(n, g, root, i);
    ChildSide(n, g, root, id, b, mid, x);
  }

  lemma HalvedIsDisjoint(g: Map, id: nat, b: Key, g': Map)
    requires Disjoint(g) && id < |g| && Cuts(g[id], b) && |g'| == |g| + 1
    requires g'[..|g|] == g[id := g[id].(hi := Some(b))] && g'[|g|] == Region(g[id].level, Some(b), g[id].hi)
    ensures Disjoint(g')
  {
    forall i, j | 0 <= i < j < |g'| && g'[i].level == g'[j].level ensures Apart(g'[i], g'[j]) {
      assert g'[i] == g'[..|g|][i];
      if j < |g| {
        assert g'[j] == g'[..|g|][j];
        assert Apart(g[i], g[j]);
      } else if i != id {
        assert if i < id then Apart(g[i], g[id]) else Apart(g[id], g[i]);
      }
    }
  }

  // ---------------------------------------------------------------------
  // Below a parent
  // ---------------------------------------------------------------------

  lemma SplitUnderNodes<V>(n: Arena<V>, g: Map, root: nat, id: nat, p: nat, j: nat, b: Key, mid: nat, n': Arena<V>, g': Map, i: nat)
    requires StructOk(n, g, root) && id < |n| && n[id].parent == Some(p) && p < |n|
    requires SplitUnder(n, g, id, p, j, b, mid, n', g') && i < |n'|
    ensures NodeOk(n', g', root, i)
  {
    assert NodeOk(n, g, root, id) && NodeOk(n, g, root, p);
    assert g'[id] == g'[..|g|][id] && g'[p] == g'[..|g|][p];
    if i < |n| && i != id && i != p {
      assert NodeOk(n, g, root, i);
      assert RestKept(n, g, id, b, i, n');
      assert g'[i] == g'[..|g|][i];
      if n[i].parent == Some(id) {
        GrandchildOk(n, g, root, id, b, mid, p, n', g', root, i);
      } else if n[i].parent.Some? {
        assert g'[n[i].parent.value] == g'[..|g|][n[i].parent.value];
      }
    } else if i == p && n[p].parent.Some? {
      assert g'[n[p].parent.value] == g'[..|g|][n[p].parent.value];
    }
  }

  lemma SplitUnderParentChildren<V>(n: Arena<V>, g: Map, root: nat, id: nat, p: nat, j: nat, b: Key, mid: nat, n': Arena<V>, g': Map, x: nat)
    requires id < |n| == |g| && n[id].parent == Some(p) && p < |n|
    requires SplitUnder(n, g, id, p, j, b, mid, n', g') && x < |Kids(n'[p])|
    requires StructOk(n, g, root)
    ensures ChildOk(n', g', p, x)
  {
    hide StructOk, SplitUnder;
    SplitUnderFacts(n, g, root, id, p, j, b, mid, n', g');
    KidsAfter(n[p].children, j, Child(Some(b), |n|));
    if x < j {
      OtherKid(n, g, root, id, p, j, b, mid, n', g', x);
    } else if x > j + 1 {
      OtherKid(n, g, root, id, p, j, b, mid, n', g', x - 1);
    }
  }

  function Spliced(cs: seq<Child>, j: nat, c: Child): (r: seq<Child>)
    requires j < |cs|
  {
    cs[..j + 1] + [c] + cs[j + 1..]
  }

  lemma KidsAfter(cs: seq<Child>, j: nat, c: Child)
    requires j < |cs|
    ensures |Spliced(cs, j, c)| == |cs| + 1 && Spliced(cs, j, c)[j + 1] == c
    ensures forall x :: 0 <= x <= j ==> Spliced(cs, j, c)[x] == cs[x]
    ensures forall x :: j + 1 < x <= |cs| ==> Spliced(cs, j, c)[x] == cs[x - 1]
  {
  }

  lemma SplitUnderFacts<V>(n: Arena<V>, g: Map, root: nat, id: nat, p: nat, j: nat, b: Key, mid: nat, n': Arena<V>, g': Map)
    requires id < |n| == |g| && p < |n| && SplitUnder(n, g, id, p, j, b, mid, n', g')
    requires StructOk(n, g, root)
    ensures |n'| == |n| + 1 == |g'| && p != id && n[p].Internal? && j < |n[p].children| && n[p].children[j].id == id && Kids(n[p]) == n[p].children
    ensures Kids(n'[p]) == Spliced(n[p].children, j, Child(Some(b), |n|))
    ensures g'[p] == g[p] && g'[id] == g[id].(hi := Some(b)) && g'[|n|] == Region(g[id].level, Some(b), g[id].hi)
    ensures n'[id].parent == Some(p) && n'[|n|].parent == Some(p) && ChildOk(n, g, p, j)
  {
    hide Disjoint, NodeOk, RestKept;
    KidOk(n, g, root, p, j);
    assert g'[id] == g'[..|g|][id] && g'[p] == g'[..|g|][p];
  }

  lemma KidOk<V>(n: Arena<V>, g: Map, root: nat, p: nat, x: nat)
    requires StructOk(n, g, root) && p < |n| && x < |Kids(n[p])|
    ensures |n| == |g| && ChildOk(n, g, p, x)
  {
  }

  /** The other children of the parent stay where they are. */
  lemma OtherKid<V>(n: Arena<V>, g: Map, root: nat, id: nat, p: nat, j: nat, b: Key, mid: nat, n': Arena<V>, g': Map, x: nat)
    requires StructOk(n, g, root) && id < |n| && n[id].parent == Some(p) && p < |n|
    requires SplitUnder(n, g, id, p, j, b, mid, n', g') && x < |n[p].children| && x != j
    ensures var c := n[p].children[x]; ChildOk(n, g, p, x) && c.id < |n| && g'[c.id] == g[c.id] && n'[c.id].parent == Some(p)
  {
    hide Disjoint, NodeOk;
    var c := n[p].children[x].id;
    assert Kids(n[p]) == n[p].children;
    assert ChildOk(n, g, p, x);
    assert g'[c] == g'[..|g|][c];
    DistinctChildren(n, g, root, p, x, j);
    assert RestKept(n, g, id, b, c, n');
  }

  lemma DistinctChildren<V>(n: Arena<V>, g: Map, root: nat, p: nat, x: nat, y: nat)
    requires StructOk(n, g, root) && p < |n| && x < |Kids(n[p])| && y < |Kids(n[p])| && x != y
    ensures Kids(n[p])[x].id != Kids(n[p])[y].id
  {
    assert ChildOk(n, g, p, x) && ChildOk(n, g, p, y);
    if x < y { BoundsIncrease(n, g, root, p, x, y); } else { BoundsIncrease(n, g, root, p, y, x); }
  }

  /** Splitting below a parent keeps the structure. */
  lemma SplitUnderOk<V>(n: Arena<V>, g: Map, root: nat, id: nat, p: nat, j: nat, b: Key, mid: nat, n': Arena<V>, g': Map)
    requires StructOk(n, g, root) && id < |n| && n[id].parent == Some(p) && p < |n|
    requires SplitUnder(n, g, id, p, j, b, mid, n', g')
    ensures StructOk(n', g', root)
  {
    assert NodeOk(n, g, root, id) && NodeOk(n, g, root, root);
    assert g'[root] == g'[..|g|][root];
    forall i | 0 <= i < |n'| ensures NodeOk(n', g', root, i) {
      SplitUnderNodes(n, g, root, id, p, j, b, mid, n', g', i);
    }
    HalvedIsDisjoint(g, id, b, g');
    forall i | 0 <= i < |n| && n[i].parent == Some(id) ensures RestKept(n, g, id, b, i, n') {
      assert NodeOk(n, g, root, i);
    }
    HalvesKeepChildren(n, g, root, id, b, mid, p, n', g');
    forall i, x | 0 <= i < |n'| && 0 <= x < |Kids(n'[i])| ensures ChildOk(n', g', i, x) {
      if i == p {
        SplitUnderParentChildren(n, g, root, id, p, j, b, mid, n', g', x);
      } else if i < |n| && i != id {
        assert RestKept(n, g, id, b, i, n');
        forall c | 0 <= c < |n| && n[c].parent == Some(i) ensures n'[c].parent == Some(i) {
          if c != p { assert RestKept(n, g, id, b, c, n'); }
        }
        OtherChildOk(n, g, root, id, b, n', g', i, x);
      }
    }
  }

  /** Children of a node that is neither half nor their parent. */
  lemma OtherChildOk<V>(n: Arena<V>, g: Map, root: nat, id: nat, b: Key, n': Arena<V>, g': Map, i: nat, x: nat)
    requires StructOk(n, g, root) && id < |n| && |n| < |n'| == |g'|
    requires g'[..|g|] == g[id := g[id].(hi := Some(b))]
    requires i < |n| && i != id && n[id].parent != Some(i) && RestKept(n, g, id, b, i, n') && x < |Kids(n[i])|
    requires forall c :: 0 <= c < |n| && n[c].parent == Some(i) ==> n'[c].parent == Some(i)
    ensures ChildOk(n', g', i, x)
  {
    assert ChildOk(n, g, i, x);
    var c := Kids(n[i])[x].id;
    assert g'[c] == g'[..|g|][c] && g'[i] == g'[..|g|][i];
  }

  // ---------------------------------------------------------------------
  // At the root
  // ---------------------------------------------------------------------

  /** The root is cut and a new root, node |n| + 1, grown above both halves. */
  ghost predicate SplitRoot<V>(n: Arena<V>, g: Map, id: nat, b: Key, mid: nat, n': Arena<V>, g': Map)
    requires id < |n| == |g|
  {
    && |n'| == |n| + 2 == |g'|
    && Halved(n, g, id, b, mid, |n| + 1, n', g')
    && g'[|n| + 1] == Region(g[id].level + 1, None, None)
    && n'[|n| + 1] == Internal(None, [Child(None, id), Child(Some(b), |n|)], [])
    && forall i :: 0 <= i < |n| && i != id ==> RestKept(n, g, id, b, i, n')
  }

  lemma LevelBelowRoot<V>(n: Arena<V>, g: Map, root: nat, i: nat)
    requires StructOk(n, g, root) && i < |n|
    ensures g[i].level < g[root].level || i == root
  {
    if i != root && g[i].level >= g[root].level {
      assert NodeOk(n, g, root, i);
      if g[i].level == g[root].level {
        OneNodePerKey(g, i, root, KeyIn(g[i]));
      } else {
        NothingAboveRoot(n, g, root, i);
      }
    }
  }

  /** No node is higher than the root: climbing to its parents would never end. */
  lemma {:induction false} NothingAboveRoot<V>(n: Arena<V>, g: Map, root: nat, i: nat)
    requires StructOk(n, g, root) && i < |n| && g[i].level > g[root].level
    ensures false
    decreases MaxLevel(g) - g[i].level
  {
    LevelAtMost(g, i);
    assert NodeOk(n, g, root, i);
    var p := n[i].parent.value;
    LevelAtMost(g, p);
    NothingAboveRoot(n, g, root, p);
  }

  ghost function MaxLevel(g: Map): nat
  {
    if g == [] then 0
    else if g[|g| - 1].level > MaxLevel(g[..|g| - 1]) then g[|g| - 1].level else MaxLevel(g[..|g| - 1])
  }

  lemma {:induction false} LevelAtMost(g: Map, i: nat)
    requires i < |g|
    ensures g[i].level <= MaxLevel(g)
    decreases |g|
  {
    if i < |g| - 1 {
      assert g[..|g| - 1][i] == g[i];
      LevelAtMost(g[..|g| - 1], i);
    }
  }

  lemma SplitRootOk<V>(n: Arena<V>, g: Map, root: nat, b: Key, mid: nat, n': Arena<V>, g': Map)
    requires StructOk(n, g, root) && SplitRoot(n, g, root, b, mid, n', g')
    ensures StructOk(n', g', |n| + 1)
  {
    hide NodeOk, ChildOk, Disjoint;
    var q := |n| + 1;
    SplitRootTop(n, g, root, b, mid, n', g');
    forall i | 0 <= i < |n'| ensures NodeOk(n', g', q, i) {
      if i < |n| && i != root { SplitRootNodes(n, g, root, b, mid, n', g', i); }
    }
    SplitRootKids(n, g, root, b, mid, n', g');
    RootRegionsDisjoint(n, g, root, b, g');
  }

  lemma SplitRootKids<V>(n: Arena<V>, g: Map, root: nat, b: Key, mid: nat, n': Arena<V>, g': Map)
    requires StructOk(n, g, root) && SplitRoot(n, g, root, b, mid, n', g')
    ensures forall i, x :: 0 <= i < |n'| && 0 <= x < |Kids(n'[i])| ==> ChildOk(n', g', i, x)
  {
    hide Disjoint, ChildOk, NodeOk;
    forall i | 0 <= i < |n| && n[i].parent == Some(root) ensures RestKept(n, g, root, b, i, n') {
      assert i != root by { assert NodeOk(n, g, root, root); RootHasNone(n, g, root); }
    }
    HalvesKeepChildren(n, g, root, root, b, mid, |n| + 1, n', g');
    forall i, x | 0 <= i < |n'| && 0 <= x < |Kids(n'[i])| ensures ChildOk(n', g', i, x) {
      if i < |n| && i != root {
        SplitRootKid(n, g, root, b, mid, n', g', i, x);
      } else if i == |n| + 1 {
        NewRootKid(n, g, root, b, mid, n', g', x);
      }
    }
  }

  lemma RootHasNone<V>(n: Arena<V>, g: Map, root: nat)
    requires root < |n| == |g| && NodeOk(n, g, root, root)
    ensures n[root].parent.None?
  {
  }

  lemma NewRootKid<V>(n: Arena<V>, g: Map, root: nat, b: Key, mid: nat, n': Arena<V>, g': Map, x: nat)
    requires StructOk(n, g, root) && SplitRoot(n, g, root, b, mid, n', g') && x < 2
    ensures ChildOk(n', g', |n| + 1, x)
  {
    hide Disjoint, NodeOk, RestKept;
    assert g'[root] == g'[..|g|][root];
  }

  lemma SplitRootKid<V>(n: Arena<V>, g: Map, root: nat, b: Key, mid: nat, n': Arena<V>, g': Map, i: nat, x: nat)
    requires StructOk(n, g, root) && SplitRoot(n, g, root, b, mid, n', g') && i < |n| && i != root && x < |Kids(n'[i])|
    ensures ChildOk(n', g', i, x)
  {
    hide Disjoint, ChildOk;
    assert NodeOk(n, g, root, root);
    assert RestKept(n, g, root, b, i, n');
    forall c | 0 <= c < |n| && n[c].parent == Some(i) ensures n'[c].parent == Some(i) { assert RestKept(n, g, root, b, c, n'); }
    OtherChildOk(n, g, root, root, b, n', g', i, x);
  }

  lemma SplitRootTop<V>(n: Arena<V>, g: Map, root: nat, b: Key, mid: nat, n': Arena<V>, g': Map)
    requires StructOk(n, g, root) && SplitRoot(n, g, root, b, mid, n', g')
    ensures NodeOk(n', g', |n| + 1, root) && NodeOk(n', g', |n| + 1, |n|) && NodeOk(n', g', |n| + 1, |n| + 1)
  {
    hide Disjoint, RestKept;
    assert NodeOk(n, g, root, root);
    assert g'[root] == g'[..|g|][root];
  }

  lemma SplitRootNodes<V>(n: Arena<V>, g: Map, root: nat, b: Key, mid: nat, n': Arena<V>, g': Map, i: nat)
    requires StructOk(n, g, root) && SplitRoot(n, g, root, b, mid, n', g') && i < |n| && i != root
    ensures NodeOk(n', g', |n| + 1, i)
  {
    hide Disjoint;
    assert NodeOk(n, g, root, i);
    assert RestKept(n, g, root, b, i, n');
    assert g'[i] == g'[..|g|][i];
    if n[i].parent == Some(root) {
      GrandchildOk(n, g, root, root, b, mid, |n| + 1, n', g', |n| + 1, i);
    } else {
      assert g'[n[i].parent.value] == g'[..|g|][n[i].parent.value];
    }
  }

  lemma RootRegionsDisjoint<V>(n: Arena<V>, g: Map, root: nat, b: Key, g': Map)
    requires StructOk(n, g, root) && |g'| == |g| + 2
    requires g'[..|g|] == g[root := g[root].(hi := Some(b))] && g'[|g|] == Region(g[root].level, Some(b), g[root].hi)
    requires g'[|g| + 1].level == g[root].level + 1
    ensures Disjoint(g')
  {
    var low := g'[..|g| + 1];
    assert low[..|g|] == g'[..|g|];
    HalvedIsDisjoint(g, root, b, low);
    forall i, j | 0 <= i < j < |g'| && g'[i].level == g'[j].level ensures Apart(g'[i], g'[j]) {
      if j < |g| + 1 {
        assert g'[i] == low[i] && g'[j] == low[j];
      } else {
        assert g'[i] == low[i];
        if i < |g| { LevelBelowRoot(n, g, root, i); }
      }
    }
  }
}
