/** The Bε-tree itself: an arena of nodes updated in place. */
module BeTree {
  import opened Options
  import opened BeTreeModel
  import opened BeTreeMessages
  import opened BeTreeContent
  import opened BeTreeSplit
  import opened BeTreeState
  import opened BeTreeSteps
  import opened BeTreeCut
  import opened BeTreeQuery
  import opened BeTreeRounds

  /** The arena after a node was divided and before its right half is linked to a parent. */
  ghost predicate Halves<V>(n: Arena<V>, id: nat, b: Key, mid: nat, n': Arena<V>)
    requires id < |n|
  {
    && |n'| == |n| + 1
    && BoundAt(n[id], mid, b)
    && (match n[id]
        case Internal(par, cs, buf) =>
          && n'[id] == Internal(par, cs[..mid], Below(buf, b))
          && n'[|n|] == Internal(par, cs[mid..], AtLeast(buf, b))
        case Leaf(par, es) =>
          && n'[id] == Leaf(par, es[..mid])
          && n'[|n|] == Leaf(par, es[mid..]))
    && forall c :: 0 <= c < |n| && c != id ==>
         n'[c] == if InRight(Kids(n[id]), mid, c) then WithParent(n[c], Some(|n|)) else n[c]
  }

  /** Messages below and not below a key, in order. */
  method Partition<V>(msgs: seq<Message<V>>, key: Option<Key>) returns (left: seq<Message<V>>, right: seq<Message<V>>)
    ensures key.Some? ==> left == Below(msgs, key.value) && right == AtLeast(msgs, key.value)
    ensures key.None? ==> left == [] && right == msgs
  {
    left, right := [], [];
    for i := 0 to |msgs|
      invariant key.Some? ==> left == Below(msgs[..i], key.value) && right == AtLeast(msgs[..i], key.value)
      invariant key.None? ==> left == [] && right == msgs[..i]
    {
      assert msgs[..i + 1][..i] == msgs[..i];
      if key.None? || msgs[i].key >= key.value {
        right := right + [msgs[i]];
      } else {
        left := left + [msgs[i]];
      }
    }
    assert msgs[..|msgs|] == msgs;
  }

  ghost predicate BoundsSorted(cs: seq<Child>)
  {
    forall x, y :: 0 <= x < y < |cs| ==>
      cs[y].bound.Some? && (cs[x].bound.Some? ==> cs[x].bound.value < cs[y].bound.value)
  }

  /** Binary search for the place of a bound; None counts as below every key. */
  method BoundPosition(cs: seq<Child>, b: Key) returns (pos: nat)
    requires BoundsSorted(cs)
    ensures pos <= |cs|
    ensures forall x :: 0 <= x < pos ==> cs[x].bound.None? || cs[x].bound.value < b
    ensures forall x :: pos <= x < |cs| ==> cs[x].bound.Some? && b <= cs[x].bound.value
  {
    var lo, hi := 0, |cs|;
    while lo < hi
      invariant lo <= hi <= |cs|
      invariant forall x :: 0 <= x < lo ==> cs[x].bound.None? || cs[x].bound.value < b
      invariant forall x :: hi <= x < |cs| ==> cs[x].bound.Some? && b <= cs[x].bound.value
    {
      var mid := (lo + hi) / 2;
      if cs[mid].bound.None? || cs[mid].bound.value < b {
        lo := mid + 1;
      } else {
        hi := mid;
      }
    }
    pos := lo;
  }

  lemma SortedBounds<V>(n: Arena<V>, g: Map, root: nat, i: nat)
    requires StructOk(n, g, root) && i < |n|
    ensures BoundsSorted(Kids(n[i]))
  {
    forall x, y | 0 <= x < y < |Kids(n[i])|
      ensures Kids(n[i])[y].bound.Some? && (Kids(n[i])[x].bound.Some? ==> Kids(n[i])[x].bound.value < Kids(n[i])[y].bound.value)
    {
      BoundsIncrease(n, g, root, i, x, y);
    }
  }

  /** A parent does not move when its child is divided. */
  lemma ParentStays<V>(n: Arena<V>, g: Map, root: nat, id: nat, mid: nat, p: nat)
    requires StructOk(n, g, root) && id < |n| && n[id].parent == Some(p)
    ensures p < |n| && p != id && n[p].Internal? && !InRight(Kids(n[id]), mid, p)
  {
    assert NodeOk(n, g, root, id);
    assert NodeOk(n, g, root, p);
    forall x | 0 <= x < |Kids(n[id])| ensures Kids(n[id])[x].id != p {
      assert ChildOk(n, g, id, x);
    }
  }

  lemma OnlyRootHasNoParent<V>(n: Arena<V>, g: Map, root: nat, id: nat)
    requires StructOk(n, g, root) && id < |n| && n[id].parent.None?
    ensures id == root
  {
    assert NodeOk(n, g, root, id);
  }

  /** Linking the right half below the parent completes the cut. */
  lemma LinkedUnder<V>(n: Arena<V>, g: Map, root: nat, id: nat, b: Key, mid: nat, p: nat, j: nat, n1: Arena<V>, n': Arena<V>)
    requires StructOk(n, g, root) && id < |n| && n[id].parent == Some(p) && Halves(n, id, b, mid, n1)
    requires p < |n| && p != id && n[p].Internal? && n1[p] == n[p] && j < |n[p].children| && n[p].children[j].id == id
    requires |n'| == |n1| && forall i :: 0 <= i < |n1| && i != p ==> n'[i] == n1[i]
    requires n'[p] == Internal(n[p].parent, n[p].children[..j + 1] + [Child(Some(b), |n|)] + n[p].children[j + 1..], n[p].buffer)
    ensures CutUnder(n, id, b, mid, p, j, n')
  {
    hide StructOk, Below, AtLeast, InRight;
  }

  lemma LinkedRoot<V>(n: Arena<V>, id: nat, b: Key, mid: nat, n1: Arena<V>, n': Arena<V>)
    requires id < |n| && n[id].parent == None && Halves(n, id, b, mid, n1)
    requires |n'| == |n| + 2 && n'[|n| + 1] == Internal(None, [Child(None, id), Child(Some(b), |n|)], [])
    requires n'[id] == WithParent(n1[id], Some(|n| + 1)) && n'[|n|] == WithParent(n1[|n|], Some(|n| + 1))
    requires forall i :: 0 <= i < |n| && i != id ==> n'[i] == n1[i]
    ensures CutRoot(n, id, b, mid, n')
  {
    hide Below, AtLeast, InRight;
  }

  /** The state s' after node id of s, too large for its limit, was divided. */
  ghost predicate Divided<V>(s: View<V>, s': View<V>, id: nat, h: nat, limit: nat)
  {
    && |s.n| == |s.g| && id < |s.n| < |s'.n| == |s'.g| == |s'.hand|
    && Evolves(s, s') && Calm(s, s', h) && SameBelow(s, s', s.g[id].level)
    && s'.g[|s.n|].level == s.g[id].level && Within(s'.g[|s.n|], s.g[id])
    && Size(s'.n[|s.n|]) == Size(s.n[id]) - (limit / 2 + 1)
    && (s'.n[|s.n|].Internal? <==> s.n[id].Internal?)
    && (s.n[id].parent.Some? ==>
      var p := s.n[id].parent.value;
      && p < |s.n| && p != id && FixedAbove(s, s', s.g[id].level)
      && s'.n[id].parent == Some(p) && s'.n[|s.n|].parent == Some(p)
      && s'.n[p].Internal? && Size(s'.n[p]) == Size(s.n[p]) + 1)
  }

  /** Nodes that may be too large after dividing node id. */
  ghost function OverAfter<V>(s: View<V>, id: nat, over: set<nat>): set<nat>
  {
    over - {id} + {|s.n|} + if id < |s.n| && s.n[id].parent.Some? then {s.n[id].parent.value} else {}
  }

  /** When node id may be split: it is the barrier (and the split is put off), or it
      is not being drained, sits right below the barrier, and nothing buffered at
      level h or above is in the way. */
  ghost predicate MaySplit<V>(s: View<V>, id: nat, h: nat, barrier: Option<nat>, active: set<nat>, over: set<nat>)
  {
    && id < |s.n| == |s.g| == |s.hand| && s.n[id].Internal?
    && (barrier == Some(id) ||
        (id !in active && s.hand[id] == [] && (barrier.Some? ==> s.n[id].parent == barrier) && QuietAbove(s, id, h, barrier.Some?)))
    && active <= over && forall o :: o in over && o !in active ==> o < |s.g| && s.g[o].level <= s.g[id].level
  }

  /** Node id of s was divided, and its ancestors where that made them too large. */
  ghost predicate SplitOff<V>(s: View<V>, s': View<V>, id: nat, h: nat, barrier: Option<nat>, limit: nat)
  {
    && |s.n| == |s.g| && id < |s.n| < |s'.n| == |s'.g| == |s'.hand|
    && Evolves(s, s') && Calm(s, s', h) && SameBelow(s, s', s.g[id].level)
    && s'.g[|s.n|].level == s.g[id].level && Within(s'.g[|s.n|], s.g[id])
    && s'.n[|s.n|].Internal? && s.n[id].Internal? && Size(s'.n[|s.n|]) == Size(s.n[id]) - (limit / 2 + 1)
    && (barrier.Some? ==> FixedAbove(s, s', s.g[id].level) && s'.n[|s.n|].parent == barrier)
  }

  lemma SplitOnce<V>(s: View<V>, s': View<V>, id: nat, h: nat, barrier: Option<nat>, limit: nat)
    requires Divided(s, s', id, h, limit) && s.n[id].Internal? && (barrier.Some? ==> s.n[id].parent == barrier)
    ensures SplitOff(s, s', id, h, barrier, limit)
  {
    hide Evolves, Calm, SameBelow, FixedAbove, Within;
  }

  /** A split of node id followed by a split of its parent. */
  lemma SplitTwice<V>(s: View<V>, s1: View<V>, s2: View<V>, id: nat, p: nat, h: nat, limit: nat)
    requires Divided(s, s1, id, h, limit) && s.n[id].parent == Some(p) && s.n[id].Internal?
    requires SplitOff(s1, s2, p, h, None, limit) && s1.g[p].level == s1.g[id].level + 1
    ensures SplitOff(s, s2, id, h, None, limit)
  {
    EvolvesTrans(s, s1, s2);
    CalmTrans(s, s1, s2, h);
    assert Kids(s2.n[|s.n|]) == Kids(s1.n[|s.n|]);
  }

  lemma QuietSelf<V>(s: View<V>, id: nat, h: nat, barred: bool)
    requires Inv(s) && id < |s.n| == |s.g| && QuietAbove(s, id, h, barred)
    ensures h > s.g[id].level || Buffer(s.n[id]) == []
  {
    assert NodeOk(s.n, s.g, s.root, id);
    assert Above(s.g, id, barred, id);
  }

  lemma LeafLevel<V>(n: Arena<V>, g: Map, root: nat, id: nat)
    requires StructOk(n, g, root) && id < |n|
    ensures n[id].Leaf? <==> g[id].level == 0
  {
    assert NodeOk(n, g, root, id);
  }

  lemma ParentLevel<V>(n: Arena<V>, g: Map, root: nat, id: nat, p: nat)
    requires StructOk(n, g, root) && id < |n| && n[id].parent == Some(p)
    ensures p < |n| && n[p].Internal? && g[p].level == g[id].level + 1 <= g[root].level
  {
    assert NodeOk(n, g, root, id) && ParentOk(n, g, id, p);
    assert NodeOk(n, g, root, p);
    LevelBelowRoot(n, g, root, p);
  }

  /** The parent of a node just divided may be split in turn. */
  lemma MayCascade<V>(s: View<V>, s1: View<V>, id: nat, p: nat, h: nat, barrier: Option<nat>, active: set<nat>, over: set<nat>, limit: nat)
    requires StructOk(s1.n, s1.g, s1.root) && Divided(s, s1, id, h, limit) && s.n[id].parent == Some(p)
    requires MaySplit(s, id, h, barrier, active, over) && barrier != Some(id)
    requires HandsOk(s1, active) && (barrier.None? ==> active == {}) && (barrier.Some? ==> barrier.value in active)
    ensures MaySplit(s1, p, h, barrier, active, OverAfter(s, id, over))
    ensures s1.g[p].level == s.g[id].level + 1 == s1.g[id].level + 1 <= s1.g[s1.root].level && s1.root == s.root && (if barrier == Some(p) then p in active else p !in over)
    ensures s1.g[s1.root].level == s.g[s.root].level || s.root >= |s.g|
  {
    hide StructOk, QuietAbove, SameBelow, Calm;
    ParentLevel(s1.n, s1.g, s1.root, id, p);
    if barrier.None? {
      QuietMoves(s, s1, id, id, h, false);
      QuietParent(s1, id, p, h);
    }
    var over1 := OverAfter(s, id, over);
    forall o | o in over1 && o !in active ensures o < |s1.g| && s1.g[o].level <= s1.g[p].level {
      if o != |s.n| && o != p { assert s.g[o].level <= s.g[id].level; }
    }
    if s.root < |s.g| { assert s1.g[s.root].level == s.g[s.root].level; }
  }

  /** The right half of a node just split may be split in turn. */
  lemma RightMaySplit<V>(s: View<V>, s': View<V>, id: nat, h: nat, barrier: Option<nat>, active: set<nat>, limit: nat)
    requires MaySplit(s, id, h, barrier, active, active + {id}) && SplitOff(s, s', id, h, barrier, limit) && barrier != Some(id)
    requires HandsOk(s', active) && forall a :: a in active ==> a < |s.g|
    ensures MaySplit(s', |s.n|, h, barrier, active, active + {|s.n|})
    ensures active + {id} - {id} + {|s.n|} == active + {|s.n|}
  {
    hide QuietAbove, Calm, SameBelow, FixedAbove;
    QuietMoves(s, s', id, |s.n|, h, barrier.Some?);
  }

  /** What repairing node id may change. */
  ghost predicate Repaired<V>(s: View<V>, s': View<V>, id: nat, h: nat, barrier: Option<nat>)
  {
    && |s.n| == |s.g| && id < |s.n| && |s'.n| == |s'.g| == |s'.hand|
    && Evolves(s, s') && Calm(s, s', h) && (barrier.Some? ==> FixedAbove(s, s', s.g[id].level))
  }

  lemma RepairedNot<V>(s: View<V>, id: nat, h: nat, barrier: Option<nat>)
    requires id < |s.n| == |s.g| == |s.hand|
    ensures Repaired(s, s, id, h, barrier)
  {
  }

  lemma RepairedMore<V>(s: View<V>, s1: View<V>, s2: View<V>, id: nat, cur: nat, h: nat, barrier: Option<nat>, limit: nat)
    requires Repaired(s, s1, id, h, barrier) && SplitOff(s1, s2, cur, h, barrier, limit) && s1.g[cur].level == s.g[id].level
    ensures Repaired(s, s2, id, h, barrier) && s2.g[|s1.n|].level == s.g[id].level
  {
    EvolvesTrans(s, s1, s2);
    CalmTrans(s, s1, s2, h);
  }

  // ---------------------------------------------------------------------
  // Leaves
  // ---------------------------------------------------------------------

  /** Binary search in sorted entries. */
  method EntryPosition<V>(es: seq<Entry<V>>, key: Key) returns (found: bool, pos: nat)
    requires Sorted(es)
    ensures pos <= |es|
    ensures forall x :: 0 <= x < pos ==> es[x].key < key
    ensures found ==> pos < |es| && es[pos].key == key
    ensures !found ==> forall x :: pos <= x < |es| ==> key < es[x].key
  {
    var lo, hi := 0, |es|;
    while lo < hi
      invariant lo <= hi <= |es|
      invariant forall x :: 0 <= x < lo ==> es[x].key < key
      invariant forall x :: hi <= x < |es| ==> key < es[x].key
    {
      var mid := (lo + hi) / 2;
      if es[mid].key == key {
        return true, mid;
      } else if es[mid].key < key {
        lo := mid + 1;
      } else {
        hi := mid;
      }
    }
    return false, lo;
  }

  lemma ReplaceApplied<V>(es: seq<Entry<V>>, pos: nat, v: V)
    requires Sorted(es) && pos < |es|
    ensures Applied(es, es[pos].key, Upsert(v), es[pos := Entry(es[pos].key, v)])
  {
    var es' := es[pos := Entry(es[pos].key, v)];
    assert es'[pos] in es';
    forall e | e in es && e.key != es[pos].key ensures e in es' {
      var x :| 0 <= x < |es| && es[x] == e;
      assert es'[x] == e;
    }
  }

  lemma RemoveApplied<V>(es: seq<Entry<V>>, pos: nat)
    requires Sorted(es) && pos < |es|
    ensures Applied(es, es[pos].key, Delete, es[..pos] + es[pos + 1..])
  {
    var es' := es[..pos] + es[pos + 1..];
    forall x | 0 <= x < |es'| ensures es'[x] == es[if x < pos then x else x + 1] {
    }
    forall e | e in es && e.key != es[pos].key ensures e in es' {
      var x :| 0 <= x < |es| && es[x] == e;
      assert es'[if x < pos then x else x - 1] == e;
    }
  }

  lemma InsertApplied<V>(es: seq<Entry<V>>, pos: nat, key: Key, v: V)
    requires Sorted(es) && pos <= |es| && (forall x :: 0 <= x < pos ==> es[x].key < key) && forall x :: pos <= x < |es| ==> key < es[x].key
    ensures Applied(es, key, Upsert(v), es[..pos] + [Entry(key, v)] + es[pos..])
  {
    var es' := es[..pos] + [Entry(key, v)] + es[pos..];
    forall x | 0 <= x < |es'| && x != pos ensures es'[x] == es[if x < pos then x else x - 1] {
    }
    assert es'[pos] == Entry(key, v);
    forall e | e in es ensures e in es' {
      var x :| 0 <= x < |es| && es[x] == e;
      assert es'[if x < pos then x else x + 1] == e;
    }
  }

  // ---------------------------------------------------------------------
  // Draining a node
  // ---------------------------------------------------------------------

  /** The first message in node id's hand has been passed on. */
  ghost predicate Drained<V>(s: View<V>, s': View<V>, id: nat)
  {
    && |s.n| == |s.g| == |s.hand| && id < |s.n| && |s'.n| == |s'.g| == |s'.hand| && s.hand[id] != []
    && Shrinks(s.g, s'.g) && s'.model == s.model && s'.bag <= s.bag
    && s'.hand[..|s.hand|] == s.hand[id := s.hand[id][1..]]
    && s.g[id].level > 0 && FixedAbove(s, s', s.g[id].level - 1) && Calm(s, s', s.g[id].level)
  }

  lemma CalmHigher<V>(s: View<V>, s': View<V>, h: nat, h': nat)
    requires |s'.n| == |s'.g| && Calm(s, s', h) && h <= h'
    ensures Calm(s, s', h')
  {
  }

  /** An update of node t, below node id, that uses the first message in hand. */
  lemma DrainedAt<V>(s: View<V>, s': View<V>, id: nat, t: nat)
    requires |s.n| == |s.g| == |s.hand| && id < |s.n| && t < |s.n| && s.hand[id] != [] && s.g[t].level < s.g[id].level
    requires s'.g == s.g && s'.root == s.root && |s'.n| == |s.n| && (forall i :: 0 <= i < |s.n| && i != t ==> s'.n[i] == s.n[i])
    requires s'.hand == s.hand[id := s.hand[id][1..]] && s'.model == s.model && s'.bag <= s.bag
    ensures Drained(s, s', id)
  {
  }

  /** Splits and flushes strictly below node id, before or after a message was passed on. */
  lemma DrainedThen<V>(s: View<V>, s1: View<V>, s2: View<V>, id: nat)
    requires Drained(s, s1, id) && Evolves(s1, s2) && |s2.n| == |s2.g| == |s2.hand|
    requires FixedAbove(s1, s2, s.g[id].level - 1) && Calm(s1, s2, s.g[id].level)
    ensures Drained(s, s2, id)
  {
    ShrinksTrans(s.g, s1.g, s2.g);
    CalmTrans(s, s1, s2, s.g[id].level);
    assert s2.hand[..|s.hand|] == s2.hand[..|s1.hand|][..|s.hand|];
  }

  lemma ThenDrained<V>(s: View<V>, s1: View<V>, s2: View<V>, id: nat)
    requires |s.n| == |s.g| == |s.hand| && id < |s.n| && |s1.n| == |s1.g| && s.g[id].level > 0
    requires Evolves(s, s1) && FixedAbove(s, s1, s.g[id].level - 1) && Calm(s, s1, s.g[id].level) && Drained(s1, s2, id)
    ensures Drained(s, s2, id)
  {
    ShrinksTrans(s.g, s1.g, s2.g);
    CalmTrans(s, s1, s2, s.g[id].level);
    assert s2.hand[..|s.hand|] == s2.hand[..|s1.hand|][..|s.hand|];
    assert s1.hand[id] == s1.hand[..|s.hand|][id];
  }

  /** A message in hand belongs to the node's region and is still pending. */
  lemma HandPlaced<V>(s: View<V>, id: nat)
    requires Inv(s) && id < |s.n| && id < |s.hand| && s.hand[id] != []
    ensures id < |s.g| && In(s.g[id], s.hand[id][0].key) && s.hand[id][0] in s.bag
  {
    hide StructOk, ContentInv, Older, Ordered;
    var q := QueuesOf(s.n, s.hand);
    assert q[id] == s.hand[id] + Buffer(s.n[id]);
    assert Placed(s.g[id], q[id], s.bag) && q[id][0] in q[id];
  }

  lemma LeafSorted<V>(s: View<V>, i: nat)
    requires Inv(s) && i < |s.n| && s.n[i].Leaf?
    ensures Sorted(s.n[i].entries)
  {
    assert LeafOk(s.g[i], s.n[i].entries);
  }

  lemma ContentOf<V>(s: View<V>)
    requires Inv(s)
    ensures ContentInv(s.n, s.g, s.bag, s.model)
  {
  }

  lemma DisjointOf<V>(s: View<V>)
    requires Inv(s)
    ensures Disjoint(s.g)
  {
  }

  lemma LimitsUpdate<V>(n: Arena<V>, c: Config, over: set<nat>, i: nat, x: Node<V>, over': set<nat>)
    requires Limits(n, c, over) && i < |n| && SizeOk(x, c, i in over') && over <= over'
    ensures Limits(n[i := x], c, over')
  {
    forall j | 0 <= j < |n| ensures SizeOk(n[i := x][j], c, j in over') { assert SizeOk(n[j], c, j in over); }
  }

  /** The child that routing chooses for a key of the node's region. */
  lemma RoutedChild<V>(n: Arena<V>, g: Map, root: nat, id: nat, key: Key)
    requires StructOk(n, g, root) && id < |n| && n[id].Internal? && In(g[id], key)
    ensures |n[id].children| >= 1 && BoundsSorted(n[id].children) && g[id].level > 0
    ensures var c := n[id].children[RouteFrom(n[id].children, key, 0)].id;
      && c < |n| && g[c].level + 1 == g[id].level && n[c].parent == Some(id) && In(g[c], key)
      && (n[c].Leaf? <==> g[c].level == 0)
  {
    RouteCovers(n, g, root, id, key);
    SortedBounds(n, g, root, id);
    LeafLevel(n, g, root, n[id].children[RouteFrom(n[id].children, key, 0)].id);
  }

  /** What flushing node id may change, and how far up it leaves buffers alone. */
  ghost predicate Flushed<V>(s: View<V>, s': View<V>, id: nat, h: nat, barrier: Option<nat>)
  {
    && |s.n| == |s.g| == |s.hand| && id < |s.n| && |s'.n| == |s'.g| == |s'.hand|
    && Evolves(s, s') && Calm(Taken(s, id), s', h) && (barrier.Some? ==> FixedAbove(s, s', s.g[id].level))
    && (Buffer(s.n[id]) == [] ==> s' == s)
  }

  /** When node id may be flushed. */
  ghost predicate MayFlush<V>(s: View<V>, id: nat, h: nat, barrier: Option<nat>, active: set<nat>)
  {
    && id < |s.n| == |s.g| == |s.hand| && id !in active && s.root < |s.g| && h >= s.g[id].level
    && (barrier.Some? ==> s.n[id].parent == barrier)
    && QuietAbove(Taken(s, id), id, h, barrier.Some?)
  }

  /** With its parent as barrier, a node may always be flushed. */
  lemma MayFlushBarred<V>(s: View<V>, id: nat, barrier: nat, active: set<nat>)
    requires Inv(s) && id < |s.n| == |s.g| == |s.hand| && s.root < |s.g| && s.n[id].parent == Some(barrier) && id !in active
    ensures MayFlush(s, id, s.g[id].level, Some(barrier), active)
  {
    var t := Taken(s, id);
    forall y | 0 <= y < |t.n| && Above(t.g, id, true, y) ensures Buffer(t.n[y]) == [] {
      assert Apart(s.g[y], s.g[id]) || y == id;
    }
  }

  /** After a flush of the child that covered the key, the child that covers it now has room. */
  lemma RoomAfterFlush<V>(s: View<V>, s': View<V>, child: nat, t: nat, key: Key, barrier: Option<nat>)
    requires child < |s.g| && Flushed(s, s', child, s.g[child].level, barrier) && Disjoint(s.g) && In(s.g[child], key)
    requires t < |s'.n| && s'.g[t].level == s.g[child].level && In(s'.g[t], key)
    ensures Buffer(s'.n[t]) == []
  {
    if t < |s.n| {
      assert In(s.g[t], key);
      OneNodePerKey(s.g, t, child, key);
    }
  }

  /** The barrier is the lowest of the nodes being drained. */
  ghost predicate ActiveFits(g: Map, barrier: Option<nat>, active: set<nat>)
  {
    match barrier
    case None => active == {}
    case Some(b) => b in active && forall a :: a in active ==> a < |g| && (b < |g| ==> g[a].level >= g[b].level)
  }

  /** Node id of s is being drained; `rest` is what it still holds. */
  ghost predicate Draining<V>(s: View<V>, s': View<V>, id: nat, rest: seq<Message<V>>)
  {
    && |s.n| == |s.g| == |s.hand| && id < |s.n| && |s'.n| == |s'.g| == |s'.hand| && s.root < |s.g|
    && Shrinks(s.g, s'.g) && s'.model == s.model && s'.bag <= s.bag
    && s'.hand[..|s.hand|] == s.hand[id := rest]
    && s.g[id].level > 0 && FixedAbove(s, s', s.g[id].level - 1) && Calm(s, s', s.g[id].level)
  }

  lemma DrainingStart<V>(s: View<V>, id: nat)
    requires id < |s.n| == |s.g| == |s.hand| && s.root < |s.g| && s.g[id].level > 0
    ensures Draining(s, s, id, s.hand[id])
  {
  }

  lemma DrainingMore<V>(s: View<V>, s1: View<V>, s2: View<V>, id: nat, rest: seq<Message<V>>)
    requires Draining(s, s1, id, rest) && rest != [] && Drained(s1, s2, id)
    ensures Draining(s, s2, id, rest[1..])
  {
    ShrinksTrans(s.g, s1.g, s2.g);
    assert s1.g[id].level == s.g[id].level;
    CalmTrans(s, s1, s2, s.g[id].level);
    assert s1.hand[id] == s1.hand[..|s.hand|][id];
    assert s2.hand[..|s.hand|] == s2.hand[..|s1.hand|][..|s.hand|];
  }

  lemma DrainingHolds<V>(s: View<V>, s': View<V>, id: nat, rest: seq<Message<V>>)
    requires Draining(s, s', id, rest) && StructOk(s'.n, s'.g, s'.root)
    ensures id < |s'.n| == |s'.hand| && s'.hand[id] == rest && s'.root < |s'.g| && s'.n[id].Internal? && s'.g[id] == s.g[id] && Shrinks(s.g, s'.g)
  {
    hide StructOk, Calm;
    LeafLevel(s'.n, s'.g, s'.root, id);
    assert s'.hand[id] == s'.hand[..|s.hand|][id];
  }

  /** What happens strictly below a node does not change its parent. */
  lemma ParentFixed<V>(s: View<V>, s': View<V>, id: nat)
    requires StructOk(s.n, s.g, s.root) && StructOk(s'.n, s'.g, s'.root) && id < |s.n| && id < |s'.n|
    requires s.g[id].level > 0 && s'.g[id] == s.g[id] && FixedAbove(s, s', s.g[id].level - 1)
    ensures s'.n[id].parent == s.n[id].parent
  {
    assert NodeOk(s.n, s.g, s.root, id) && NodeOk(s'.n, s'.g, s'.root, id);
    if s.n[id].parent.Some? {
      var p, p' := s.n[id].parent.value, s'.n[id].parent.value;
      OneNodePerKey(s.g, p, p', KeyIn(s.g[id]));
    }
  }

  lemma FlushedNot<V>(s: View<V>, id: nat, h: nat, barrier: Option<nat>)
    requires id < |s.n| == |s.g| == |s.hand| && s.n[id].Leaf?
    ensures Flushed(s, s, id, h, barrier)
  {
  }

  lemma FlushedAll<V>(s: View<V>, s2: View<V>, s3: View<V>, id: nat, h: nat, barrier: Option<nat>)
    requires id < |s.n| == |s.g| == |s.hand| && s.hand[id] == [] && h >= s.g[id].level
    requires Draining(Taken(s, id), s2, id, []) && Repaired(s2, s3, id, h, barrier)
    requires Buffer(s.n[id]) == [] ==> s3 == s
    ensures Flushed(s, s3, id, h, barrier)
  {
    var s1 := Taken(s, id);
    ShrinksTrans(s.g, s2.g, s3.g);
    CalmHigher(s1, s2, s.g[id].level, h);
    CalmTrans(s1, s2, s3, h);
    assert s3.hand[..|s.hand|] == s3.hand[..|s2.hand|][..|s.hand|] == s.hand;
  }

  /** The view below a flushed child, for the parent that is being drained. */
  lemma StillHere<V>(s: View<V>, s1: View<V>, id: nat, child: nat)
    requires id < |s.g| && id < |s.n| && child < |s.g| && s.root < |s.g| && Flushed(s, s1, child, s.g[child].level, Some(id)) && s.g[child].level + 1 == s.g[id].level
    ensures s1.root < |s1.g| && id < |s1.n| && s1.g[id] == s.g[id] && s1.hand[id] == s.hand[id] && Shrinks(s.g, s1.g)
    ensures FixedAbove(s, s1, s.g[id].level - 1) && Calm(s, s1, s.g[id].level) && Evolves(s, s1)
  {
    assert s1.hand[id] == s1.hand[..|s.hand|][id];
  }

  /** Once its hand is empty and the barrier lifted, the node may be repaired. */
  lemma MayRepair<V>(s: View<V>, s2: View<V>, id: nat, h: nat, barrier: Option<nat>, active: set<nat>)
    requires MayFlush(s, id, h, barrier, active) && Draining(Taken(s, id), s2, id, []) && Inv(s2) && Inv(Taken(s, id))
    ensures MaySplit(s2, id, h, barrier, active, active + {id})
  {
    hide Inv, QuietAbove, StructOk;
    var s1 := Taken(s, id);
    InvStruct(s2);
    InvStruct(s1);
    DrainingHolds(s1, s2, id, []);
    ParentFixed(s1, s2, id);
    CalmHigher(s1, s2, s.g[id].level, h);
    QuietMoves(s1, s2, id, id, h, barrier.Some?);
  }

  lemma TakeNothing<V>(s: View<V>, id: nat)
    requires id < |s.n| && id < |s.hand| && s.hand[id] == [] && Buffer(s.n[id]) == []
    ensures Taken(s, id) == s
  {
    assert WithBuffer(s.n[id], []) == s.n[id];
    assert Taken(s, id).n == s.n && Taken(s, id).hand == s.hand;
  }

  // ---------------------------------------------------------------------
  // The root, and lookups
  // ---------------------------------------------------------------------

  lemma RootParent<V>(n: Arena<V>, g: Map, root: nat)
    requires StructOk(n, g, root)
    ensures n[root].parent == None
  {
    assert NodeOk(n, g, root, root);
  }

  lemma RootCovers<V>(n: Arena<V>, g: Map, root: nat, key: Key)
    requires StructOk(n, g, root)
    ensures In(g[root], key)
  {
  }

  /** Nothing is above the root, so it may always be flushed. */
  lemma MayFlushRoot<V>(s: View<V>)
    requires Inv(s)
    ensures |s.g| == |s.n| && s.root < |s.g| && MayFlush(s, s.root, s.g[s.root].level, None, {})
  {
    var t := Taken(s, s.root);
    forall y | 0 <= y < |t.n| && t.g[y].level >= s.g[s.root].level ensures Buffer(t.n[y]) == [] {
      LevelBelowRoot(s.n, s.g, s.root, y);
    }
  }

  lemma RoomAtRoot<V>(s: View<V>, s': View<V>)
    requires Inv(s) && Inv(s') && s.root < |s.g| && s.n[s.root].Internal?
    requires Flushed(s, s', s.root, s.g[s.root].level, None)
    ensures s'.n[s'.root].Internal? && Buffer(s'.n[s'.root]) == []
  {
    hide MsgInv, ContentInv;
    LevelBelowRoot(s'.n, s'.g, s'.root, s.root);
    LeafLevel(s.n, s.g, s.root, s.root);
    LeafLevel(s'.n, s'.g, s'.root, s'.root);
    if s'.root < |s.n| { LevelBelowRoot(s.n, s.g, s.root, s'.root); }
  }

  lemma FlushedSame<V>(s: View<V>, s': View<V>, id: nat, h: nat, barrier: Option<nat>)
    requires Flushed(s, s', id, h, barrier)
    ensures s'.bag <= s.bag && s'.model == s.model
  {
  }

  lemma HandOf<V>(s: View<V>, i: nat)
    requires HandsOk(s, {}) && i < |s.hand|
    ensures s.hand[i] == []
  {
  }

  lemma HandsSame<V>(s: View<V>, s': View<V>, active: set<nat>)
    requires HandsOk(s, active) && s'.hand == s.hand
    ensures HandsOk(s', active)
  {
  }

  /** A message for the key sits in a buffer above level l. */
  ghost predicate BufferedAbove<V>(s: View<V>, l: nat, key: Key, m: Message<V>)
    requires |s.n| == |s.g|
  {
    m.key == key && exists i :: 0 <= i < |s.n| && s.g[i].level > l && m in Buffer(s.n[i])
  }

  /** On the way down, only the node that covers the key can hold messages for it. */
  lemma OneLevelMore<V>(s: View<V>, cur: nat, key: Key, m: Message<V>)
    requires Inv(s) && HandsOk(s, {}) && cur < |s.n| == |s.g| && In(s.g[cur], key) && s.g[cur].level > 0
    ensures BufferedAbove(s, s.g[cur].level - 1, key, m) <==>
      BufferedAbove(s, s.g[cur].level, key, m) || (m in Buffer(s.n[cur]) && m.key == key)
  {
    hide MsgInv, ContentInv;
    PendingIsBuffered(s, m);
    if BufferedAbove(s, s.g[cur].level - 1, key, m) && !BufferedAbove(s, s.g[cur].level, key, m) {
      var i :| 0 <= i < |s.n| && s.g[i].level > s.g[cur].level - 1 && m in Buffer(s.n[i]);
      OneNodePerKey(s.g, i, cur, key);
    }
  }

  lemma BufferedIsPending<V>(s: View<V>, key: Key, m: Message<V>)
    requires Inv(s) && HandsOk(s, {}) && |s.n| == |s.g|
    ensures BufferedAbove(s, 0, key, m) <==> m in s.bag && m.key == key
  {
    hide Inv;
    PendingIsBuffered(s, m);
  }

  lemma NothingAbove<V>(s: View<V>, key: Key, m: Message<V>)
    requires Inv(s) && |s.n| == |s.g| && s.root < |s.n|
    ensures !BufferedAbove(s, s.g[s.root].level, key, m)
  {
    forall i | 0 <= i < |s.n| ensures s.g[i].level <= s.g[s.root].level { LevelBelowRoot(s.n, s.g, s.root, i); }
  }

  /** Leaf entry and messages in order of sequence number determine the value. */
  lemma LookupIsRight<V>(s: View<V>, leaf: nat, key: Key, msgs: seq<Message<V>>, v0: Option<V>)
    requires ContentInv(s.n, s.g, s.bag, s.model) && leaf < |s.n| && s.n[leaf].Leaf? && In(s.g[leaf], key)
    requires BySeq(msgs) && forall m :: m in msgs <==> m in s.bag && m.key == key
    requires Holds(s.n[leaf].entries, key, v0) && Sorted(s.n[leaf].entries)
    ensures BeTreeContent.Get(s.model, key) == if |msgs| == 0 then v0 else Outcome(msgs[|msgs| - 1].op)
  {
    if |msgs| > 0 {
      assert msgs[|msgs| - 1] in msgs;
      LastDecides(s, msgs, |msgs| - 1);
    } else {
      assert Quiet(s.bag, key);
      assert Settled(s.n[leaf].entries, s.bag, s.model, key);
      HoldsOnce(s.n[leaf].entries, key, v0, BeTreeContent.Get(s.model, key));
    }
  }

  lemma HoldsOnce<V>(es: seq<Entry<V>>, k: Key, v: Option<V>, w: Option<V>)
    requires Sorted(es) && Holds(es, k, v) && Holds(es, k, w)
    ensures v == w
  {
  }

  lemma EmptyTreeOk<V>(s: View<V>, c: Config)
    requires s.n == [Leaf(None, [])] && s.root == 0 && s.g == [Region(0, None, None)] && s.hand == [[]] && s.bag == {} && s.model == map[]
    ensures Inv(s) && HandsOk(s, {}) && Limits(s.n, c, {}) && Buffered(s.n) == 0 && Stored(s.n) == 0
  {
    hide StructOk, MsgInv, ContentInv;
    EmptyStruct(s);
    EmptyMessages(s);
    EmptyContent(s);
    assert Stored(s.n[..0]) == 0 && Buffered(s.n[..0]) == 0;
  }

  lemma EmptyStruct<V>(s: View<V>)
    requires s.n == [Leaf(None, [])] && s.root == 0 && s.g == [Region(0, None, None)]
    ensures StructOk(s.n, s.g, s.root)
  {
    assert NonEmpty(s.g[0]);
  }

  lemma EmptyMessages<V>(s: View<V>)
    requires s.n == [Leaf(None, [])] && s.g == [Region(0, None, None)] && s.hand == [[]] && s.bag == {}
    ensures MsgInv(QueuesOf(s.n, s.hand), s.g, s.bag)
  {
    assert QueuesOf(s.n, s.hand) == [[]];
  }

  lemma EmptyContent<V>(s: View<V>)
    requires s.n == [Leaf(None, [])] && s.g == [Region(0, None, None)] && s.bag == {} && s.model == map[]
    ensures ContentInv(s.n, s.g, s.bag, s.model)
  {
  }

  // ---------------------------------------------------------------------
  // Range scans
  // ---------------------------------------------------------------------

  ghost predicate BufferedUpTo<V>(s: View<V>, l: nat, m: Message<V>)
    requires |s.n| == |s.g|
  {
    exists i :: 0 <= i < |s.n| && s.g[i].level <= l && m in Buffer(s.n[i])
  }

  /** Everything in the range that lies in region r, in nodes up to level l, has been collected. */
  ghost predicate Complete<V>(s: View<V>, r: Region, l: nat, lo: Option<Key>, hi: Option<Key>, msgs: seq<Message<V>>, leaves: seq<nat>)
    requires |s.n| == |s.g|
  {
    && (forall m :: m in s.bag && InRange(m.key, lo, hi) && In(r, m.key) && BufferedUpTo(s, l, m) ==> m in msgs)
    && (forall i, k :: 0 <= i < |s.n| && s.n[i].Leaf? && In(s.g[i], k) && In(r, k) && InRange(k, lo, hi) ==> i in leaves)
  }

  /** Only leaves, and pending messages in the range, have been added. */
  ghost predicate Added<V>(s: View<V>, lo: Option<Key>, hi: Option<Key>,
                           msgs: seq<Message<V>>, leaves: seq<nat>, msgs': seq<Message<V>>, leaves': seq<nat>)
  {
    && (forall m :: m in msgs ==> m in msgs') && (forall l :: l in leaves ==> l in leaves')
    && (forall m :: m in msgs' ==> m in msgs || (m in s.bag && InRange(m.key, lo, hi)))
    && (forall l :: l in leaves' ==> l in leaves || (l < |s.n| && s.n[l].Leaf?))
  }

  ghost predicate Collected<V>(s: View<V>, r: Region, l: nat, lo: Option<Key>, hi: Option<Key>,
                               msgs: seq<Message<V>>, leaves: seq<nat>, msgs': seq<Message<V>>, leaves': seq<nat>)
  {
    |s.n| == |s.g| && Added(s, lo, hi, msgs, leaves, msgs', leaves') && Complete(s, r, l, lo, hi, msgs', leaves')
  }

  /** The node's own buffer and its first j children have been dealt with. */
  ghost predicate CollectedKids<V>(s: View<V>, id: nat, j: nat, own: seq<Message<V>>, lo: Option<Key>, hi: Option<Key>,
                                   msgs: seq<Message<V>>, leaves: seq<nat>, msgs': seq<Message<V>>, leaves': seq<nat>)
  {
    && |s.n| == |s.g| && id < |s.n| && j <= |Kids(s.n[id])| && s.g[id].level > 0
    && Added(s, lo, hi, msgs, leaves, msgs', leaves') && (forall m :: m in own ==> m in msgs')
    && forall x :: 0 <= x < j ==>
         Kids(s.n[id])[x].id < |s.n| && Complete(s, s.g[Kids(s.n[id])[x].id], s.g[id].level - 1, lo, hi, msgs', leaves')
  }

  lemma ChildFacts<V>(s: View<V>, id: nat, j: nat)
    requires Inv(s) && id < |s.n| && j < |Kids(s.n[id])|
    ensures |s.n| == |s.g| && ChildOk(s.n, s.g, id, j)
  {
  }

  lemma CollectedLeaf<V>(s: View<V>, id: nat, lo: Option<Key>, hi: Option<Key>, msgs: seq<Message<V>>, leaves: seq<nat>)
    requires Inv(s) && HandsOk(s, {}) && id < |s.n| == |s.g| && s.n[id].Leaf? && s.g[id].level == 0
    ensures Collected(s, s.g[id], 0, lo, hi, msgs, leaves, msgs, leaves + [id])
  {
    hide MsgInv, ContentInv;
    forall m | BufferedUpTo(s, 0, m) ensures false { PendingIsBuffered(s, m); }
    forall i, k | 0 <= i < |s.n| && s.n[i].Leaf? && In(s.g[i], k) && In(s.g[id], k) ensures i in leaves + [id] {
      LeafLevel(s.n, s.g, s.root, i);
      OneNodePerKey(s.g, i, id, k);
    }
  }

  lemma CollectedNone<V>(s: View<V>, id: nat, own: seq<Message<V>>, lo: Option<Key>, hi: Option<Key>, msgs: seq<Message<V>>, leaves: seq<nat>)
    requires Inv(s) && HandsOk(s, {}) && id < |s.n| == |s.g| && s.g[id].level > 0
    requires forall m :: m in own <==> m in Buffer(s.n[id]) && InRange(m.key, lo, hi)
    ensures CollectedKids(s, id, 0, own, lo, hi, msgs, leaves, msgs + own, leaves)
  {
    hide Inv;
    forall m | m in own ensures m in s.bag { PendingIsBuffered(s, m); }
  }

  /** A child whose bound is above the range has nothing in it. */
  lemma CollectedPruned<V>(s: View<V>, id: nat, j: nat, lo: Option<Key>, hi: Option<Key>, msgs: seq<Message<V>>, leaves: seq<nat>)
    requires |s.n| == |s.g| && id < |s.n| && j < |Kids(s.n[id])| && ChildOk(s.n, s.g, id, j)
    requires hi.Some? && Kids(s.n[id])[j].bound.Some? && hi.value < Kids(s.n[id])[j].bound.value
    ensures Collected(s, s.g[Kids(s.n[id])[j].id], s.g[Kids(s.n[id])[j].id].level, lo, hi, msgs, leaves, msgs, leaves)
  {
  }

  lemma CollectedOne<V>(s: View<V>, id: nat, j: nat, own: seq<Message<V>>, lo: Option<Key>, hi: Option<Key>,
                        msgs: seq<Message<V>>, leaves: seq<nat>, msgs1: seq<Message<V>>, leaves1: seq<nat>, msgs2: seq<Message<V>>, leaves2: seq<nat>)
    requires CollectedKids(s, id, j, own, lo, hi, msgs, leaves, msgs1, leaves1) && j < |Kids(s.n[id])| && ChildOk(s.n, s.g, id, j)
    requires Collected(s, s.g[Kids(s.n[id])[j].id], s.g[Kids(s.n[id])[j].id].level, lo, hi, msgs1, leaves1, msgs2, leaves2)
    ensures CollectedKids(s, id, j + 1, own, lo, hi, msgs, leaves, msgs2, leaves2)
  {
    hide InRange, In, BufferedUpTo;
    forall x | 0 <= x < j ensures Complete(s, s.g[Kids(s.n[id])[x].id], s.g[id].level - 1, lo, hi, msgs2, leaves2) {
      assert Complete(s, s.g[Kids(s.n[id])[x].id], s.g[id].level - 1, lo, hi, msgs1, leaves1);
    }
  }

  lemma CollectedAll<V>(s: View<V>, id: nat, own: seq<Message<V>>, lo: Option<Key>, hi: Option<Key>,
                        msgs: seq<Message<V>>, leaves: seq<nat>, msgs': seq<Message<V>>, leaves': seq<nat>)
    requires Inv(s) && HandsOk(s, {}) && id < |s.n| == |s.g| && s.n[id].Internal?
    requires CollectedKids(s, id, |Kids(s.n[id])|, own, lo, hi, msgs, leaves, msgs', leaves')
    requires forall m :: m in own <==> m in Buffer(s.n[id]) && InRange(m.key, lo, hi)
    ensures Collected(s, s.g[id], s.g[id].level, lo, hi, msgs, leaves, msgs', leaves')
  {
    hide InRange, MsgInv, ContentInv, NodeOk, ChildOk, Disjoint;
    forall m | m in s.bag && InRange(m.key, lo, hi) && In(s.g[id], m.key) && BufferedUpTo(s, s.g[id].level, m) ensures m in msgs' {
      PendingIsBuffered(s, m);
      RoutedChild(s.n, s.g, s.root, id, m.key);
      var x := RouteFrom(s.n[id].children, m.key, 0);
      assert Complete(s, s.g[Kids(s.n[id])[x].id], s.g[id].level - 1, lo, hi, msgs', leaves');
      var i :| 0 <= i < |s.n| && s.g[i].level <= s.g[id].level && m in Buffer(s.n[i]);
      if s.g[i].level == s.g[id].level { OneNodePerKey(s.g, i, id, m.key); }
    }
    forall i, k | 0 <= i < |s.n| && s.n[i].Leaf? && In(s.g[i], k) && In(s.g[id], k) && InRange(k, lo, hi) ensures i in leaves' {
      RoutedChild(s.n, s.g, s.root, id, k);
      var x := RouteFrom(s.n[id].children, k, 0);
      assert Complete(s, s.g[Kids(s.n[id])[x].id], s.g[id].level - 1, lo, hi, msgs', leaves');
    }
  }

  /** From the root, all pending messages in the range and all leaves that matter are found. */
  lemma WholeTree<V>(s: View<V>, lo: Option<Key>, hi: Option<Key>, msgs: seq<Message<V>>, leaves: seq<nat>)
    requires Inv(s) && HandsOk(s, {}) && s.root < |s.g| && Collected(s, s.g[s.root], s.g[s.root].level, lo, hi, [], [], msgs, leaves)
    ensures forall m :: m in msgs <==> m in s.bag && InRange(m.key, lo, hi)
    ensures forall x :: 0 <= x < |leaves| ==> leaves[x] < |s.n| && s.n[leaves[x]].Leaf?
    ensures forall i, k :: 0 <= i < |s.n| && s.n[i].Leaf? && In(s.g[i], k) && InRange(k, lo, hi) ==> i in leaves
  {
    hide InRange, MsgInv, ContentInv, NodeOk, ChildOk, Disjoint;
    forall m | m in s.bag && InRange(m.key, lo, hi) ensures m in msgs {
      PendingIsBuffered(s, m);
      var i :| 0 <= i < |s.n| && m in Buffer(s.n[i]);
      LevelBelowRoot(s.n, s.g, s.root, i);
      assert In(s.g[s.root], m.key) && BufferedUpTo(s, s.g[s.root].level, m);
    }
    assert forall k :: In(s.g[s.root], k);
    assert forall x :: 0 <= x < |leaves| ==> leaves[x] in leaves;
  }

  /** The first i leaves have been merged into r. */
  ghost predicate MergedLeaves<V>(n: Arena<V>, g: Map, leaves: seq<nat>, i: nat, lo: Option<Key>, hi: Option<Key>, r: Merge<V>)
  {
    && |n| == |g| && i <= |leaves| && (forall x :: 0 <= x < |leaves| ==> leaves[x] < |n| && n[leaves[x]].Leaf?)
    && (forall x, k :: 0 <= x < i && In(g[leaves[x]], k) && InRange(k, lo, hi) ==> Holds(n[leaves[x]].entries, k, Seen(r, k)))
    && (forall k :: k in r ==> exists x :: 0 <= x < i && In(g[leaves[x]], k))
    && (forall k :: Seen(r, k).Some? ==> InRange(k, lo, hi))
  }

  lemma LeafFacts<V>(s: View<V>, i: nat)
    requires Inv(s) && i < |s.n| && s.n[i].Leaf?
    ensures |s.n| == |s.g| && LeafOk(s.g[i], s.n[i].entries) && Sorted(s.n[i].entries)
  {
  }

  lemma MergeOneLeaf<V>(s: View<V>, leaves: seq<nat>, i: nat, lo: Option<Key>, hi: Option<Key>, r: Merge<V>, r': Merge<V>)
    requires Inv(s) && i < |leaves| && MergedLeaves(s.n, s.g, leaves, i, lo, hi, r)
    requires var es := s.n[leaves[i]].entries;
      && (forall x :: 0 <= x < |es| && InRange(es[x].key, lo, hi) ==> Seen(r', es[x].key) == Some(es[x].value))
      && (forall k :: !InRange(k, lo, hi) || !HasKey(es, k) ==> (k in r' <==> k in r) && Seen(r', k) == Seen(r, k))
      && (forall k :: k in r' ==> k in r || HasKey(es, k))
    ensures MergedLeaves(s.n, s.g, leaves, i + 1, lo, hi, r')
  {
    hide Inv, InRange, Sorted, Holds, Seen;
    var es := s.n[leaves[i]].entries;
    forall x, k | 0 <= x < i + 1 && In(s.g[leaves[x]], k) && InRange(k, lo, hi) ensures Holds(s.n[leaves[x]].entries, k, Seen(r', k)) {
      if HasKey(es, k) {
        FoundInLeaf(s, leaves, i, x, k, Seen(r', k));
      } else if leaves[x] == leaves[i] {
        NotMergedBefore(s, leaves, i, lo, hi, r, k);
      }
    }
    forall k | k in r' ensures exists x :: 0 <= x < i + 1 && In(s.g[leaves[x]], k) {
      if HasKey(es, k) {
        FoundInLeaf(s, leaves, i, i, k, Seen(r', k));
      } else {
        var x :| 0 <= x < i && In(s.g[leaves[x]], k);
      }
    }
    forall k | Seen(r', k).Some? ensures InRange(k, lo, hi) {
      assert HasKey(es, k) || Seen(r', k) == Seen(r, k);
    }
  }

  lemma FoundInLeaf<V>(s: View<V>, leaves: seq<nat>, i: nat, x: nat, k: Key, v: Option<V>)
    requires Inv(s) && i < |leaves| && x < |leaves| && |s.n| == |s.g|
    requires forall y :: 0 <= y < |leaves| ==> leaves[y] < |s.n| && s.n[leaves[y]].Leaf?
    requires HasKey(s.n[leaves[i]].entries, k)
    ensures In(s.g[leaves[i]], k)
    ensures In(s.g[leaves[x]], k) ==> leaves[x] == leaves[i]
    ensures (forall e :: 0 <= e < |s.n[leaves[i]].entries| && s.n[leaves[i]].entries[e].key == k ==> v == Some(s.n[leaves[i]].entries[e].value))
      ==> Holds(s.n[leaves[i]].entries, k, v)
  {
    hide MsgInv;
    var es := s.n[leaves[i]].entries;
    LeafFacts(s, leaves[i]);
    var e :| 0 <= e < |es| && es[e].key == k;
    assert es[e] in es;
    LeafLevel(s.n, s.g, s.root, leaves[i]);
    LeafLevel(s.n, s.g, s.root, leaves[x]);
    if In(s.g[leaves[x]], k) { OneNodePerKey(s.g, leaves[x], leaves[i], k); }
  }

  /** A key that is not among the entries of its leaf has not come from elsewhere. */
  lemma NotMergedBefore<V>(s: View<V>, leaves: seq<nat>, i: nat, lo: Option<Key>, hi: Option<Key>, r: Merge<V>, k: Key)
    requires Inv(s) && i < |leaves| && MergedLeaves(s.n, s.g, leaves, i, lo, hi, r)
    requires In(s.g[leaves[i]], k) && !HasKey(s.n[leaves[i]].entries, k) && InRange(k, lo, hi)
    ensures Holds(s.n[leaves[i]].entries, k, Seen(r, k))
  {
    hide MsgInv, ContentInv, InRange;
    if k in r {
      var x :| 0 <= x < i && In(s.g[leaves[x]], k);
      LeafLevel(s.n, s.g, s.root, leaves[i]);
      LeafLevel(s.n, s.g, s.root, leaves[x]);
      OneNodePerKey(s.g, leaves[x], leaves[i], k);
    }
  }

  /** Leaf entries and messages together give the represented map on the range. */
  lemma MergedIsRight<V>(s: View<V>, lo: Option<Key>, hi: Option<Key>, leaves: seq<nat>, msgs: seq<Message<V>>, base: Merge<V>, r: Merge<V>, k: Key)
    requires Inv(s) && |s.n| == |s.g| && BySeq(msgs) && forall m :: m in msgs <==> m in s.bag && InRange(m.key, lo, hi)
    requires forall x :: 0 <= x < |leaves| ==> leaves[x] < |s.n| && s.n[leaves[x]].Leaf?
    requires forall i, k :: 0 <= i < |s.n| && s.n[i].Leaf? && In(s.g[i], k) && InRange(k, lo, hi) ==> i in leaves
    requires forall x, k :: 0 <= x < |leaves| && In(s.g[leaves[x]], k) && InRange(k, lo, hi) ==> Holds(s.n[leaves[x]].entries, k, Seen(base, k))
    requires forall k :: Seen(base, k).Some? ==> InRange(k, lo, hi)
    requires forall x :: 0 <= x < |msgs| && Last(msgs, x) && InRange(msgs[x].key, lo, hi) ==> Seen(r, msgs[x].key) == Outcome(msgs[x].op)
    requires forall k :: !InRange(k, lo, hi) || !Mentions(msgs, k) ==> Seen(r, k) == Seen(base, k)
    ensures Seen(r, k) == if InRange(k, lo, hi) then BeTreeContent.Get(s.model, k) else None
  {
    hide InRange, MsgInv, BySeq;
    if InRange(k, lo, hi) {
      if Mentions(msgs, k) {
        var x := LastExists(msgs, k);
        LastDecides(s, msgs, x);
      } else {
        var leaf := LeafOf(s, k);
        assert leaf in leaves;
        var x :| 0 <= x < |leaves| && leaves[x] == leaf;
        QuietWithout(s, lo, hi, msgs, k);
        assert Settled(s.n[leaf].entries, s.bag, s.model, k);
        LeafFacts(s, leaf);
        HoldsOnce(s.n[leaf].entries, k, Seen(base, k), BeTreeContent.Get(s.model, k));
      }
    }
  }

  lemma QuietWithout<V>(s: View<V>, lo: Option<Key>, hi: Option<Key>, msgs: seq<Message<V>>, k: Key)
    requires !Mentions(msgs, k) && InRange(k, lo, hi) && forall m :: m in msgs <==> m in s.bag && InRange(m.key, lo, hi)
    ensures Quiet(s.bag, k)
  {
    forall m | m in s.bag ensures m.key != k {
      if InRange(m.key, lo, hi) {
        assert m in msgs;
        var x :| 0 <= x < |msgs| && msgs[x] == m;
      }
    }
  }

  /** Every key has a leaf. */
  lemma LeafOf<V>(s: View<V>, k: Key) returns (leaf: nat)
    requires Inv(s)
    ensures leaf < |s.n| == |s.g| && s.n[leaf].Leaf? && In(s.g[leaf], k)
  {
    hide MsgInv, ContentInv;
    leaf := s.root;
    while s.n[leaf].Internal?
      invariant leaf < |s.n| && In(s.g[leaf], k)
      decreases s.g[leaf].level
    {
      RoutedChild(s.n, s.g, s.root, leaf, k);
      leaf := s.n[leaf].children[RouteFrom(s.n[leaf].children, k, 0)].id;
    }
  }

  // ---------------------------------------------------------------------
  // Flushing everything
  // ---------------------------------------------------------------------

  ghost function Indices(k: nat): (r: set<nat>)
    ensures forall i :: 0 <= i < k ==> i in r
  {
    if k == 0 then {} else Indices(k - 1) + {k - 1}
  }

  lemma FirstChild<V>(n: Arena<V>, g: Map, root: nat, i: nat)
    requires StructOk(n, g, root) && i < |n| && n[i].Internal?
    ensures |n[i].children| > 0 && n[i].children[0].id < |n| == |g| && g[n[i].children[0].id].level + 1 == g[i].level
  {
    assert NodeOk(n, g, root, i);
    assert ChildOk(n, g, i, 0);
  }

  lemma StartEmpty<V>(s: View<V>)
    requires Inv(s)
    ensures |s.n| == |s.g| && s.root < |s.g| && EmptyFrom(s, s.g[s.root].level + 1)
  {
    forall i | 0 <= i < |s.n| ensures s.g[i].level <= s.g[s.root].level { LevelBelowRoot(s.n, s.g, s.root, i); }
  }

  lemma LeavesHoldNothing<V>(s: View<V>)
    requires |s.n| == |s.g| && EmptyFrom(s, 0)
    ensures EmptyFrom(s, 1)
  {
  }

  lemma AllFlushed<V>(s: View<V>)
    requires Inv(s) && |s.n| == |s.g| && EmptyFrom(s, 1)
    ensures Buffered(s.n) == 0
  {
    forall i | 0 <= i < |s.n| ensures Buffer(s.n[i]) == [] { LeafLevel(s.n, s.g, s.root, i); }
    NothingBuffered(s.n);
  }

  lemma RoundInside<V>(s: View<V>, h: nat, ids: seq<nat>)
    requires Round(s, h, ids)
    ensures |s.n| == |s.g| && forall x :: 0 <= x < |ids| ==> ids[x] < |s.n|
  {
  }

  lemma RoundEnd<V>(s: View<V>, h: nat)
    requires Round(s, h, [])
    ensures |s.n| == |s.g| && EmptyFrom(s, h)
  {
  }

  lemma MayFlushInRound<V>(s: View<V>, h: nat, ids: seq<nat>)
    requires Inv(s) && Round(s, h, ids) && ids != [] && ids[0] < |s.g| && |s.n| == |s.g| == |s.hand|
    ensures MayFlush(s, ids[0], if s.g[ids[0]].level > h then s.g[ids[0]].level else h, None, {})
  {
    hide Round, QuietAbove;
    DisjointOf(s);
    RoundQuiet(s, Taken(s, ids[0]), h, ids);
  }

  lemma FlushedInRound<V>(s: View<V>, s': View<V>, h: nat, ids: seq<nat>)
    requires Round(s, h, ids) && ids != [] && ids[0] < |s.g|
    requires Flushed(s, s', ids[0], if s.g[ids[0]].level > h then s.g[ids[0]].level else h, None)
    ensures Round(s', h, ids[1..])
  {
    if s.g[ids[0]].level > h {
      RoundStep(s, s, s, h, ids);
    } else {
      RoundStep(s, Taken(s, ids[0]), s', h, ids);
    }
  }

  lemma SkippedInRound<V>(s: View<V>, h: nat, ids: seq<nat>)
    requires Round(s, h, ids) && ids != [] && ids[0] < |s.n| && s.n[ids[0]].Leaf?
    ensures Round(s, h, ids[1..])
  {
    RoundStep(s, s, s, h, ids);
  }

  ghost predicate IsChild<V>(n: Arena<V>, p: nat, c: nat)
  {
    p < |n| && exists j :: 0 <= j < |Kids(n[p])| && Kids(n[p])[j].id == c
  }

  class BeTree<V> {
    var nodes: Arena<V>
    var root: nat
    const config: Config
    var nextSeq: nat
    var liveEntries: nat
    var pending: nat
    /** Node whose split is deferred while its buffer drains. */
    var splitBarrier: Option<nat>

    ghost var geo: Map
    ghost var hand: Queues<V>
    ghost var bag: set<Message<V>>
    ghost var model: map<Key, V>
    /** Messages counted as pending but not yet in a buffer. */
    ghost var due: nat
    /** The nodes being drained; the barrier is the lowest. */
    ghost var active: set<nat>

    ghost function Now(): View<V>
      reads this
    {
      View(nodes, root, geo, hand, bag, model)
    }

    ghost predicate ActiveOk()
      reads this
    {
      ActiveFits(geo, splitBarrier, active)
    }

    ghost predicate Totals()
      reads this
    {
      pending == Buffered(nodes) + due && liveEntries == Stored(nodes) && forall m :: m in bag ==> m.seqno <= nextSeq
    }

    /** The invariant while nodes are being drained; those in `over` may be too large. */
    ghost predicate Sound(over: set<nat>)
      reads this
    {
      && ConfigOk(config) && Inv(Now()) && HandsOk(Now(), active) && Limits(nodes, config, over)
      && Totals() && ActiveOk()
    }

    /** The invariant between operations. */
    ghost predicate Valid()
      reads this
    {
      Sound({}) && splitBarrier.None? && due == 0
    }

    lemma Hands(over: set<nat>)
      requires Sound(over)
      ensures HandsOk(Now(), active) && (splitBarrier.None? ==> active == {}) && (splitBarrier.Some? ==> splitBarrier.value in active)
    {
    }

    lemma Sizes(over: set<nat>)
      requires Sound(over)
      ensures |nodes| == |geo| == |hand| && root < |nodes| && StructOk(nodes, geo, root)
    {
      InvSizes(Now());
      InvStruct(Now());
    }

    /** Between operations every node is within its limits, bounds are sorted, parent
        pointers are right, and the counters are exact. */
    lemma WellShaped(i: nat)
      requires Valid() && i < |nodes|
      ensures nodes[i].Internal? ==>
        && 1 <= |nodes[i].children| <= config.maxChildren && |nodes[i].buffer| <= config.bufferCapacity
        && BoundsSorted(nodes[i].children)
        && forall j :: 0 <= j < |nodes[i].children| ==> nodes[i].children[j].id < |nodes| && nodes[nodes[i].children[j].id].parent == Some(i)
      ensures nodes[i].Leaf? ==> |nodes[i].entries| <= config.leafMaxEntries && Sorted(nodes[i].entries)
      ensures nodes[i].parent.None? <==> i == root
      ensures pending == Buffered(nodes) && liveEntries == Stored(nodes)
    {
      hide Limits, MsgInv, Buffered, Stored;
      Sizes({});
      SizeOf(i, {});
      assert NodeOk(nodes, geo, root, i);
      SortedBounds(nodes, geo, root, i);
      if nodes[i].Internal? {
        forall j | 0 <= j < |nodes[i].children|
          ensures nodes[i].children[j].id < |nodes| && nodes[nodes[i].children[j].id].parent == Some(i)
        {
          assert Kids(nodes[i]) == nodes[i].children;
          assert ChildOk(nodes, geo, i, j);
        }
      } else {
        LeafSorted(Now(), i);
      }
    }

    /** A walk from the root down child pointers. */
    ghost predicate IsPath(ids: seq<nat>)
      reads this
    {
      && ids != [] && ids[0] == root && (forall x :: 0 <= x < |ids| ==> ids[x] < |nodes|)
      && forall x :: 0 <= x < |ids| - 1 ==> IsChild(nodes, ids[x], ids[x + 1])
    }

    /** All leaves sit at one depth. */
    lemma {:induction false} LeavesAtOneDepth(ids: seq<nat>)
      requires Valid() && IsPath(ids) && |nodes| == |geo|
      ensures geo[ids[|ids| - 1]].level + |ids| == geo[root].level + 1
      ensures nodes[ids[|ids| - 1]].Leaf? <==> |ids| == geo[root].level + 1
      decreases |ids|
    {
      hide Limits, MsgInv, ContentInv, Buffered, Stored;
      Sizes({});
      var last := ids[|ids| - 1];
      LeafLevel(nodes, geo, root, last);
      if |ids| > 1 {
        var rest := ids[..|ids| - 1];
        assert forall x :: 0 <= x < |rest| - 1 ==> IsChild(nodes, rest[x], rest[x + 1]) by {
          forall x | 0 <= x < |rest| - 1 ensures IsChild(nodes, rest[x], rest[x + 1]) { assert IsChild(nodes, ids[x], ids[x + 1]); }
        }
        LeavesAtOneDepth(rest);
        var up := ids[|ids| - 2];
        assert IsChild(nodes, up, ids[|ids| - 2 + 1]);
        var j :| 0 <= j < |Kids(nodes[up])| && Kids(nodes[up])[j].id == last;
        assert ChildOk(nodes, geo, up, j);
      }
    }

    /** An empty tree: one leaf. */
    constructor (c: Config)
      requires ConfigOk(c)
      ensures Valid() && config == c && model == map[]
    {
      nodes := [Leaf(None, [])];
      root := 0;
      config := c;
      nextSeq := 0;
      liveEntries := 0;
      pending := 0;
      splitBarrier := None;
      geo, hand, bag, model, due, active := [Region(0, None, None)], [[]], {}, map[], 0, {};
      new;
      hide Inv, HandsOk, Limits, Buffered, Stored;
      EmptyTreeOk(Now(), config);
    }

    // -------------------------------------------------------------------
    // Operations
    // -------------------------------------------------------------------

    /** Sets the value of a key. */
    method Insert(key: Key, value: V)
      requires Valid()
      modifies this
      ensures Valid() && model == old(model)[key := value]
    {
      hide Inv, Limits, HandsOk, ActiveFits, Buffered, Stored;
      nextSeq := nextSeq + 1;
      Enqueue(Message(key, nextSeq, Upsert(value)));
    }

    /** Removes a key. */
    method Delete(key: Key)
      requires Valid()
      modifies this
      ensures Valid() && model == old(model) - {key}
    {
      hide Inv, Limits, HandsOk, ActiveFits, Buffered, Stored;
      nextSeq := nextSeq + 1;
      Enqueue(Message(key, nextSeq, Op.Delete));
    }

    method Enqueue(msg: Message<V>)
      requires Valid() && msg.seqno <= nextSeq && forall m :: m in bag ==> m.seqno < msg.seqno
      modifies this
      ensures Valid() && model == Put(old(model), msg.key, msg.op)
    {
      hide Inv, Limits, Buffered, Stored, StructOk, QuietAbove, Calm, Evolves, Applied, MayFlush, Put, HandsOk, Flushed, Repaired;
      Sizes({});
      if nodes[root].Leaf? {
        EnqueueAtLeaf(msg);
        return;
      }
      pending := pending + 1;
      due := 1;
      ghost var s := Now();
      if |nodes[root].buffer| >= config.bufferCapacity {
        assert active == {};
        MayFlushRoot(s);
        FlushNode(root, geo[root].level);
        Sizes({});
        RoomAtRoot(s, Now());
        FlushedSame(s, Now(), s.root, s.g[s.root].level, None);
      }
      PushAtRoot(msg);
    }

    method PushAtRoot(msg: Message<V>)
      requires root < |nodes| && nodes[root].Internal? && |nodes[root].buffer| < config.bufferCapacity && splitBarrier.None? && due == 1
      requires msg.seqno <= nextSeq && forall m :: m in bag ==> m.seqno < msg.seqno
      requires Sound({})
      modifies `nodes, `due, `bag, `model
      ensures Valid() && model == Put(old(model), msg.key, msg.op)
    {
      hide Inv, Limits, Buffered, Stored, Put, HandsOk;
      ghost var s := Now();
      Hands({});
      Sizes({});
      SizeOf(root, {});
      assert hand[root] == [] by { HandOf(s, root); }
      nodes := nodes[root := Internal(nodes[root].parent, nodes[root].children, nodes[root].buffer + [msg])];
      due := 0;
      bag := bag + {msg};
      model := Put(model, msg.key, msg.op);
      assert Now() == Enqueued(s, msg);
      EnqueueKeeps(s, msg);
      LimitsUpdate(s.n, config, {}, root, nodes[root], {});
      HandsSame(s, Now(), active);
    }

    /** In a tree that is a single leaf, operations are applied at once. */
    method EnqueueAtLeaf(msg: Message<V>)
      requires root < |nodes| && nodes[root].Leaf? && |nodes| == |geo| == |hand| && msg.seqno <= nextSeq
      requires Valid()
      modifies this
      ensures Valid() && model == Put(old(model), msg.key, msg.op)
    {
      hide Inv, Limits, Buffered, Stored, StructOk, Calm, Applied, Put, FixedAbove, HandsOk;
      ghost var s := Now();
      LeafSorted(s, root);
      BufferedAtLeast(nodes, root);
      SizeOf(root, {});
      assert nodes[root].parent == None by { Sizes({}); RootParent(nodes, geo, root); }
      ApplyToLeaf(root, msg.key, msg.op);
      model := Put(model, msg.key, msg.op);
      assert Now() == AppliedNow(s, msg.key, msg.op, nodes[root].entries);
      ApplyNowKeeps(s, msg.key, msg.op, nodes[root].entries);
      LimitsUpdate(s.n, config, {}, root, nodes[root], {root});
      assert HandsOk(Now(), active) by { HandsSame(s, Now(), active); }
      assert active + {root} == {root};
      MaybeSplitLeaf(root);
    }

    /** Walks from the root to the leaf of a key and collects the messages for it. */
    method Descend(key: Key) returns (leaf: nat, pend: seq<Message<V>>)
      requires Valid()
      ensures leaf < |nodes| == |geo| && nodes[leaf].Leaf? && In(geo[leaf], key)
      ensures forall m :: m in pend <==> m in bag && m.key == key
    {
      hide Inv, Limits, Buffered, Stored, StructOk, HandsOk, Totals, In, BoundsSorted;
      Sizes({});
      ghost var s := Now();
      assert active == {};
      pend := [];
      leaf := root;
      RootCovers(nodes, geo, root, key);
      forall m ensures !BufferedAbove(s, s.g[root].level, key, m) { NothingAbove(s, key, m); }
      while nodes[leaf].Internal?
        invariant Now() == s && |nodes| == |geo| && leaf < |nodes| && In(geo[leaf], key)
        invariant forall m :: m in pend <==> BufferedAbove(s, s.g[leaf].level, key, m)
        decreases geo[leaf].level
      {
        var here := ForKey(nodes[leaf].buffer, key);
        RoutedChild(nodes, geo, root, leaf, key);
        var next := Route(leaf, key);
        forall m ensures m in pend + here <==> BufferedAbove(s, s.g[next].level, key, m) {
          OneLevelMore(s, leaf, key, m);
        }
        pend := pend + here;
        leaf := next;
      }
      LeafLevel(nodes, geo, root, leaf);
      forall m ensures m in pend <==> m in bag && m.key == key { BufferedIsPending(s, key, m); }
    }

    /** The value of a key: the leaf entry with the pending messages replayed over it. */
    method Get(key: Key) returns (value: Option<V>)
      requires Valid()
      ensures value == BeTreeContent.Get(model, key)
    {
      hide Inv, Limits, Buffered, Stored, HandsOk, Totals, ContentInv;
      var leaf, pend := Descend(key);
      var es := nodes[leaf].entries;
      LeafSorted(Now(), leaf);
      var found, pos := EntryPosition(es, key);
      value := if found then Some(es[pos].value) else None;
      var msgs := SortBySeq(pend);
      ghost var v0 := value;
      for i := 0 to |msgs|
        invariant value == if i == 0 then v0 else Outcome(msgs[i - 1].op)
      {
        match msgs[i].op {
          case Upsert(v) => value := Some(v);
          case Delete => value := None;
        }
      }
      assert Holds(es, key, v0);
      ContentOf(Now());
      LookupIsRight(Now(), leaf, key, msgs, v0);
    }

    /** All entries with keys in [lo, hi], None meaning unbounded, in ascending order. */
    method Scan(lo: Option<Key>, hi: Option<Key>) returns (out: seq<Entry<V>>)
      requires Valid()
      ensures Sorted(out)
      ensures forall e :: e in out <==> InRange(e.key, lo, hi) && BeTreeContent.Get(model, e.key) == Some(e.value)
    {
      hide Inv, Limits, Buffered, Stored, StructOk, HandsOk, Totals, ContentInv, Sorted;
      Sizes({});
      assert active == {};
      ghost var s := Now();
      var msgs, leaves := CollectRange(root, lo, hi, [], []);
      WholeTree(s, lo, hi, msgs, leaves);
      var result := MergeLeaves(leaves, lo, hi);
      var ordered := SortBySeq(msgs);
      ghost var base := result;
      result := Replay(result, ordered, lo, hi);
      forall k ensures Seen(result, k) == if InRange(k, lo, hi) then BeTreeContent.Get(model, k) else None {
        MergedIsRight(s, lo, hi, leaves, ordered, base, result, k);
      }
      out := InOrder(result);
    }

    /** Collects the messages in the range, and every leaf that can hold a key of it, below node id. */
    method CollectRange(id: nat, lo: Option<Key>, hi: Option<Key>, msgs: seq<Message<V>>, leaves: seq<nat>)
      returns (msgs': seq<Message<V>>, leaves': seq<nat>)
      requires id < |nodes| == |geo|
      requires Valid()
      ensures Collected(Now(), geo[id], geo[id].level, lo, hi, msgs, leaves, msgs', leaves')
      decreases geo[id].level
    {
      hide Inv, Limits, Buffered, Stored, StructOk, HandsOk, Totals, Collected;
      ghost var s := Now();
      assert active == {};
      Sizes({});
      LeafLevel(nodes, geo, root, id);
      if nodes[id].Leaf? {
        leaves' := leaves + [id];
        msgs' := msgs;
        CollectedLeaf(s, id, lo, hi, msgs, leaves);
        return;
      }
      var own := ForRange(nodes[id].buffer, lo, hi);
      msgs' := msgs + own;
      leaves' := leaves;
      var cs := nodes[id].children;
      assert cs == Kids(nodes[id]);
      CollectedNone(s, id, own, lo, hi, msgs, leaves);
      for j := 0 to |cs|
        invariant Now() == s
        invariant CollectedKids(s, id, j, own, lo, hi, msgs, leaves, msgs', leaves')
      {
        assert ChildOk(nodes, geo, id, j) by { ChildFacts(s, id, j); }
        ghost var msgs1, leaves1 := msgs', leaves';
        if cs[j].bound.None? || hi.None? || cs[j].bound.value <= hi.value {
          msgs', leaves' := CollectRange(cs[j].id, lo, hi, msgs', leaves');
        } else {
          CollectedPruned(s, id, j, lo, hi, msgs', leaves');
        }
        CollectedOne(s, id, j, own, lo, hi, msgs, leaves, msgs1, leaves1, msgs', leaves');
      }
      CollectedAll(s, id, own, lo, hi, msgs, leaves, msgs', leaves');
    }

    method MergeLeaves(leaves: seq<nat>, lo: Option<Key>, hi: Option<Key>) returns (r: Merge<V>)
      requires |nodes| == |geo| && forall x :: 0 <= x < |leaves| ==> leaves[x] < |nodes| && nodes[leaves[x]].Leaf?
      requires Valid()
      ensures forall x, k :: 0 <= x < |leaves| && In(geo[leaves[x]], k) && InRange(k, lo, hi) ==> Holds(nodes[leaves[x]].entries, k, Seen(r, k))
      ensures forall k :: Seen(r, k).Some? ==> InRange(k, lo, hi)
    {
      hide Inv, Limits, Buffered, Stored, HandsOk, Totals, Sorted, InRange, In, Holds, ActiveFits;
      r := map[];
      for i := 0 to |leaves|
        invariant MergedLeaves(nodes, geo, leaves, i, lo, hi, r)
      {
        LeafFacts(Now(), leaves[i]);
        ghost var r0 := r;
        r := AddEntries(r, nodes[leaves[i]].entries, lo, hi);
        MergeOneLeaf(Now(), leaves, i, lo, hi, r0, r);
      }
    }

    // -------------------------------------------------------------------
    // Flushing everything
    // -------------------------------------------------------------------

    /** Flushes every buffer to the leaves. At most 128 rounds are made; that is enough when the
        tree is no higher than 129, and with fanout 3 or more for every tree a machine can hold. */
    method FlushAll()
      requires Valid()
      modifies this
      ensures Valid() && model == old(model)
      ensures old(geo[root].level) <= 128 ==> pending == 0
      ensures config.maxChildren >= 3 && old(|nodes|) < Pow2(129) ==> pending == 0
    {
      hide Inv, Limits, Buffered, Stored, HandsOk, StructOk, ActiveFits, EmptyFrom, Pow2;
      Sizes({});
      ghost var r := geo[root].level;
      LowTree();
      StartEmpty(Now());
      for round := 0 to 128
        invariant Valid() && model == old(model) && |nodes| == |geo|
        invariant EmptyFrom(Now(), if round <= r then r + 1 - round else 1)
      {
        ghost var h := if round < r then r - round else 0;
        FlushRound(h);
        if round >= r { LeavesHoldNothing(Now()); }
        if pending == 0 {
          return;
        }
      }
      if r <= 128 { AllFlushed(Now()); }
    }

    /** One round: every inner node reachable now is flushed once. Whatever level the
        highest buffered message was at, that level is empty afterwards. */
    method FlushRound(ghost h: nat)
      requires |nodes| == |geo| && EmptyFrom(Now(), h + 1)
      requires Valid()
      modifies this
      ensures |nodes| == |geo| && EmptyFrom(Now(), h) && model == old(model)
      ensures Valid()
    {
      hide Inv, Limits, Buffered, Stored, HandsOk, StructOk, Totals, Round, Flushed, MayFlush, EmptyFrom, ParentsFirst;
      var ids := CollectInternalIds();
      RoundStart(Now(), h, ids);
      for i := 0 to |ids|
        invariant Valid() && model == old(model) && |nodes| == |geo|
        invariant Round(Now(), h, ids[i..])
      {
        Sizes({});
        RoundInside(Now(), h, ids[i..]);
        assert ids[i..][0] == ids[i] && ids[i..][1..] == ids[i + 1..];
        ghost var s := Now();
        ghost var top := if geo[ids[i]].level > h then geo[ids[i]].level else h;
        assert active == {};
        MayFlushInRound(s, h, ids[i..]);
        if nodes[ids[i]].Internal? {
          FlushNode(ids[i], top);
          Sizes({});
          FlushedInRound(s, Now(), h, ids[i..]);
          FlushedSame(s, Now(), ids[i], top, None);
        } else {
          SkippedInRound(s, h, ids[i..]);
        }
      }
      assert ids[|ids|..] == [];
      RoundEnd(Now(), h);
    }

    lemma LowTree()
      requires Valid() && root < |geo|
      ensures config.maxChildren >= 3 && |nodes| < Pow2(129) ==> geo[root].level <= 128
    {
      if config.maxChildren >= 3 && |nodes| < Pow2(129) {
        hide Inv, Buffered, Stored, HandsOk, StructOk;
        Sizes({});
        forall i | 0 <= i < |nodes| && nodes[i].Internal? ensures |nodes[i].children| >= 2 { SizeOf(i, {}); }
        HeightIsLogarithmic(nodes, geo, root);
        if geo[root].level >= 129 { Pow2Monotone(129, geo[root].level); }
      }
    }

    /** Lists the inner nodes reachable from the root, parents before their descendants. */
    method CollectInternalIds() returns (out: seq<nat>)
      requires Valid()
      ensures |nodes| == |geo| && ParentsFirst(geo, out)
      ensures forall i :: 0 <= i < |nodes| && nodes[i].Internal? ==> i in out
      ensures forall x :: 0 <= x < |out| ==> out[x] < |nodes| && nodes[out[x]].Internal?
    {
      hide Inv, Limits, Buffered, Stored, HandsOk, StructOk, Totals, ActiveFits;
      Sizes({});
      out := [];
      var stack := [root];
      ghost var visited: set<nat> := {};
      ghost var left := Indices(|nodes|);
      WalkStart(nodes, geo, root);
      while stack != []
        invariant Walk(nodes, geo, visited, stack, out)
        invariant forall i :: 0 <= i < |nodes| ==> i in visited || i in left
        decreases left
      {
        TopIsNew(nodes, geo, root, visited, stack, out);
        ghost var stack0, out0 := stack, out;
        var id := stack[|stack| - 1];
        stack := stack[..|stack| - 1];
        if nodes[id].Internal? {
          out := out + [id];
          stack := stack + Ids(nodes[id].children);
        }
        WalkStep(nodes, geo, root, visited, stack0, out0, stack, out);
        visited := visited + {id};
        left := left - {id};
      }
    }

    /** Height of the tree; a single leaf has height 1. */
    method Height() returns (h: nat)
      requires Valid()
      ensures h == geo[root].level + 1
    {
      hide Inv, Limits, Buffered, Stored, HandsOk, StructOk, Totals, ActiveFits;
      Sizes({});
      h := 1;
      var cur: nat := root;
      LeafLevel(nodes, geo, root, cur);
      while nodes[cur].Internal?
        invariant cur < |nodes| == |geo| && h + geo[cur].level == geo[root].level + 1
        invariant nodes[cur].Leaf? <==> geo[cur].level == 0
        decreases geo[cur].level
      {
        FirstChild(nodes, geo, root, cur);
        cur := nodes[cur].children[0].id;
        LeafLevel(nodes, geo, root, cur);
        h := h + 1;
      }
    }

    // -------------------------------------------------------------------
    // Splitting
    // -------------------------------------------------------------------

    method SetParent(id: nat, p: Option<nat>)
      requires id < |nodes|
      modifies `nodes
      ensures nodes == old(nodes)[id := WithParent(old(nodes)[id], p)]
    {
      nodes := nodes[id := WithParent(nodes[id], p)];
    }

    method InsertChild(p: nat, b: Key, child: nat) returns (pos: nat)
      requires p < |nodes| && child < |nodes| && p != child && nodes[p].Internal? && BoundsSorted(nodes[p].children)
      modifies `nodes
      ensures |nodes| == old(|nodes|) && nodes[child] == WithParent(old(nodes)[child], Some(p))
      ensures forall i :: 0 <= i < |nodes| && i != p && i != child ==> nodes[i] == old(nodes)[i]
      ensures pos <= |old(nodes)[p].children|
      ensures nodes[p].Internal? && nodes[p].parent == old(nodes)[p].parent && nodes[p].buffer == old(nodes)[p].buffer
      ensures nodes[p].children == old(nodes)[p].children[..pos] + [Child(Some(b), child)] + old(nodes)[p].children[pos..]
      ensures forall x :: 0 <= x < pos ==> old(nodes)[p].children[x].bound.None? || old(nodes)[p].children[x].bound.value < b
      ensures forall x :: pos <= x < |old(nodes)[p].children| ==>
        old(nodes)[p].children[x].bound.Some? && b <= old(nodes)[p].children[x].bound.value
    {
      var cs := nodes[p].children;
      pos := BoundPosition(cs, b);
      nodes := nodes[p := Internal(nodes[p].parent, cs[..pos] + [Child(Some(b), child)] + cs[pos..], nodes[p].buffer)];
      SetParent(child, Some(p));
    }

    method HalveLeaf(id: nat, mid: nat) returns (b: Key)
      requires id < |nodes| && nodes[id].Leaf? && 0 < mid < |nodes[id].entries|
      modifies `nodes
      ensures Halves(old(nodes), id, b, mid, nodes)
    {
      var es := nodes[id].entries;
      var parent := nodes[id].parent;
      b := es[mid].key;
      nodes := nodes[id := Leaf(parent, es[..mid])] + [Leaf(parent, es[mid..])];
    }

    method HalveInternal(id: nat, mid: nat) returns (b: Key)
      requires StructOk(nodes, geo, root) && id < |nodes| && nodes[id].Internal? && 0 < mid < |nodes[id].children|
      modifies `nodes
      ensures Halves(old(nodes), id, b, mid, nodes)
    {
      var cs := nodes[id].children;
      var parent := nodes[id].parent;
      ChildBoundCuts(nodes, geo, root, id, mid);
      b := cs[mid].bound.value;
      var left, right := Partition(nodes[id].buffer, cs[mid].bound);
      var rightId := |nodes|;
      forall x | 0 <= x < |cs| ensures cs[x].id < |nodes| && cs[x].id != id {
        assert Kids(nodes[id]) == cs;
        assert ChildOk(nodes, geo, id, x);
      }
      nodes := nodes[id := Internal(parent, cs[..mid], left)] + [Internal(parent, cs[mid..], right)];
      ghost var n1 := nodes;
      for x := mid to |cs|
        invariant |nodes| == |n1|
        invariant forall c :: 0 <= c < |n1| ==>
          nodes[c] == if InRight(cs[..x], mid, c) then WithParent(n1[c], Some(rightId)) else n1[c]
      {
        RightStep(cs, mid, x);
        SetParent(cs[x].id, Some(rightId));
      }
      assert cs[..|cs|] == cs;
    }

    /** Links a divided node's right half: below the parent, or with a new root above both. */
    method Attach(id: nat, b: Key, ghost mid: nat, ghost s: View<V>) returns (ghost j: nat)
      requires Inv(s) && id < |s.n| && Halves(s.n, id, b, mid, nodes)
      requires root == s.root && geo == s.g && hand == s.hand && bag == s.bag && model == s.model
      modifies `nodes, `root, `geo, `hand
      ensures SplitStep(s, Now(), id, b, KidMid(s.n[id], mid))
      ensures s.n[id].parent.None? ==> CutRoot(s.n, id, b, mid, nodes)
      ensures s.n[id].parent.Some? ==> CutUnder(s.n, id, b, mid, s.n[id].parent.value, j, nodes)
    {
      hide MsgInv, ContentInv, QueuesOf, SplitStep, StructOk, Below, AtLeast, CutUnder, CutRoot, Cuts;
      ghost var n1 := nodes;
      var rightId := |nodes| - 1;
      j := 0;
      InvSizes(s);
      match nodes[id].parent {
        case None =>
          OnlyRootHasNoParent(s.n, s.g, s.root, id);
          var oldRoot := root;
          nodes := nodes + [Internal(None, [Child(None, oldRoot), Child(Some(b), rightId)], [])];
          var newRoot := |nodes| - 1;
          SetParent(oldRoot, Some(newRoot));
          SetParent(rightId, Some(newRoot));
          root := newRoot;
          geo := CutRegions(geo, id, b) + [Region(geo[id].level + 1, None, None)];
          hand := hand + [[], []];
          LinkedRoot(s.n, id, b, mid, n1, nodes);
          CutRootIsSplit(s, Now(), id, b, mid);
        case Some(p) =>
          ParentStays(s.n, s.g, s.root, id, mid, p);
          SortedBounds(s.n, s.g, s.root, p);
          assert nodes[p] == s.n[p];
          ghost var pos := InsertChild(p, b, rightId);
          j := ChildIndex(s.n, s.g, s.root, id);
          CutsInside(s, id, b, mid);
          InsertPosition(s.n, s.g, s.root, id, p, j, b, pos);
          geo := CutRegions(geo, id, b);
          hand := hand + [[]];
          LinkedUnder(s.n, s.g, s.root, id, b, mid, p, j, n1, nodes);
          CutUnderIsSplit(s, Now(), id, b, mid, p, j);
      }
    }

    function Limit(x: Node<V>): nat
    {
      if x.Internal? then config.maxChildren else config.leafMaxEntries
    }

    /** Divides an overfull node and links the halves. */
    method Divide(id: nat, ghost over: set<nat>, ghost h: nat)
      requires |nodes| == |geo| == |hand| && id < |nodes| && hand[id] == []
      requires Size(nodes[id]) > Limit(nodes[id]) && (h > geo[id].level || Buffer(nodes[id]) == [])
      requires Sound(over)
      modifies `nodes, `root, `geo, `hand
      ensures Divided(old(Now()), Now(), id, h, Limit(old(nodes[id])))
      ensures Sound(OverAfter(old(Now()), id, over))
    {
      hide Inv, Limits, Buffered, Stored, StructOk, SplitStep, Calm, SameBelow, FixedAbove, Evolves;
      ghost var s := Now();
      Sizes(over);
      var mid := Limit(nodes[id]) / 2 + 1;
      var b;
      if nodes[id].Internal? {
        b := HalveInternal(id, mid);
      } else {
        b := HalveLeaf(id, mid);
      }
      ghost var j := Attach(id, b, mid, s);
      SplitDone(s, Now(), id, b, KidMid(s.n[id], mid), h);
      if s.n[id].parent.Some? {
        CutUnderLimits(s.n, config, over, id, b, mid, s.n[id].parent.value, j, nodes);
      } else {
        CutRootLimits(s.n, config, over, id, b, mid, nodes);
      }
      AfterSplit(s, over);
      assert OverAfter(s, id, over) == if s.n[id].parent.Some? then over - {id} + {|s.n|, s.n[id].parent.value} else over - {id} + {|s.n|};
    }

    /** Splits an overfull node once, unless it is the barrier, and then its ancestors as
        needed. Returns the new right sibling if there is one. */
    method MaybeSplitFrom(id: nat, ghost over: set<nat>, ghost h: nat) returns (right: Option<nat>)
      requires MaySplit(Now(), id, h, splitBarrier, active, over)
      requires root < |geo|
      requires Sound(over)
      modifies `nodes, `root, `geo, `hand
      ensures right.None? ==> Now() == old(Now()) && Sound(if splitBarrier == Some(id) then over else over - {id})
      ensures right.Some? ==> right.value == old(|nodes|) && SplitOff(old(Now()), Now(), id, h, splitBarrier, config.maxChildren)
      ensures right.Some? ==> Sound(over - {id} + {right.value})
      ensures right.Some? ==> splitBarrier != Some(id) && Size(old(nodes[id])) > config.maxChildren
      decreases geo[root].level - geo[id].level
    {
      hide Inv, Limits, Buffered, Stored, StructOk, HandsOk, Calm, SameBelow, FixedAbove, Evolves, QuietAbove, ActiveOk, Totals;
      if splitBarrier == Some(id) {
        return None;
      }
      if |nodes[id].children| <= config.maxChildren {
        NotOver(id, over);
        return None;
      }
      ghost var s := Now();
      right := Some(|nodes|);
      Sizes(over);
      if nodes[id].parent.Some? { ParentLevel(nodes, geo, root, id, nodes[id].parent.value); }
      QuietSelf(s, id, h, splitBarrier.Some?);
      var parent := nodes[id].parent;
      Divide(id, over, h);
      ghost var s1 := Now();
      SplitOnce(s, s1, id, h, splitBarrier, config.maxChildren);
      if parent.Some? {
        ghost var over1 := OverAfter(s, id, over);
        assert StructOk(s1.n, s1.g, s1.root) by { Sizes(over1); }
        Hands(over1);
        MayCascade(s, s1, id, parent.value, h, splitBarrier, active, over, config.maxChildren);
        var again := MaybeSplitFrom(parent.value, over1, h);
        AfterCascade(s, s1, id, parent.value, over, again);
        if again.Some? { SplitTwice(s, s1, Now(), id, parent.value, h, config.maxChildren); }
      } else {
        assert OverAfter(s, id, over) == over - {id} + {right.value};
      }
    }

    /** Splits node id and then its new right siblings until all are within the limit. */
    method RepairChain(id: nat, ghost h: nat)
      requires MaySplit(Now(), id, h, splitBarrier, active, active + {id}) && splitBarrier != Some(id)
      requires root < |geo|
      requires Sound(active + {id})
      modifies `nodes, `root, `geo, `hand
      ensures Repaired(old(Now()), Now(), id, h, splitBarrier)
      ensures Sound(active)
      ensures Size(old(nodes[id])) <= config.maxChildren ==> Now() == old(Now())
    {
      hide Inv, Limits, Buffered, Stored, StructOk, HandsOk, Repaired, SplitOff, QuietAbove, Totals;
      ghost var s := Now();
      RepairedNot(s, id, h, splitBarrier);
      var cur := id;
      var right := MaybeSplitFrom(cur, active + {cur}, h);
      if right.None? {
        assert active + {cur} - {cur} == active;
        return;
      }
      AfterSplitOff(s, cur, h);
      RepairedMore(s, s, Now(), id, cur, h, splitBarrier, config.maxChildren);
      while right.Some?
        invariant right.Some? ==> MaySplit(Now(), right.value, h, splitBarrier, active, active + {right.value})
        invariant right.Some? ==> splitBarrier != right && Sound(active + {right.value}) && geo[right.value].level == s.g[id].level
        invariant right.None? ==> Sound(active)
        invariant Repaired(s, Now(), id, h, splitBarrier) && root < |geo|
        decreases if right.Some? then 1 + Size(nodes[right.value]) else 0
      {
        cur := right.value;
        ghost var s1 := Now();
        right := MaybeSplitFrom(cur, active + {cur}, h);
        assert active + {cur} - {cur} == active;
        if right.Some? {
          AfterSplitOff(s1, cur, h);
          RepairedMore(s, s1, Now(), id, cur, h, splitBarrier, config.maxChildren);
        }
      }
    }

    lemma AfterSplitOff(s: View<V>, cur: nat, h: nat)
      requires MaySplit(s, cur, h, splitBarrier, active, active + {cur}) && splitBarrier != Some(cur)
      requires SplitOff(s, Now(), cur, h, splitBarrier, config.maxChildren) && Sound(active + {cur} - {cur} + {|s.n|})
      requires forall a :: a in active ==> a < |s.g|
      ensures MaySplit(Now(), |s.n|, h, splitBarrier, active, active + {|s.n|}) && Sound(active + {|s.n|})
      ensures splitBarrier != Some(|s.n|) && root < |geo| && Size(nodes[|s.n|]) < Size(s.n[cur])
    {
      hide MaySplit, Evolves, Calm, SameBelow, FixedAbove, Inv, Limits, Totals, StructOk;
      RightMaySplit(s, Now(), cur, h, splitBarrier, active, config.maxChildren);
      Sizes(active + {|s.n|});
    }

    // -------------------------------------------------------------------
    // Leaves
    // -------------------------------------------------------------------

    method ApplyToLeaf(leaf: nat, key: Key, op: Op<V>)
      requires leaf < |nodes| && nodes[leaf].Leaf? && Sorted(nodes[leaf].entries) && |nodes[leaf].entries| <= liveEntries
      modifies `nodes, `liveEntries
      ensures |nodes| == old(|nodes|) && nodes[leaf].Leaf? && nodes == old(nodes)[leaf := Leaf(old(nodes[leaf].parent), nodes[leaf].entries)]
      ensures Applied(old(nodes[leaf].entries), key, op, nodes[leaf].entries)
      ensures |nodes[leaf].entries| <= old(|nodes[leaf].entries|) + 1
      ensures liveEntries == old(liveEntries) - old(|nodes[leaf].entries|) + |nodes[leaf].entries|
    {
      var es := nodes[leaf].entries;
      var parent := nodes[leaf].parent;
      var found, pos := EntryPosition(es, key);
      if found {
        match op {
          case Upsert(v) =>
            nodes := nodes[leaf := Leaf(parent, es[pos := Entry(es[pos].key, v)])];
            ReplaceApplied(es, pos, v);
          case Delete =>
            nodes := nodes[leaf := Leaf(parent, es[..pos] + es[pos + 1..])];
            liveEntries := liveEntries - 1;
            RemoveApplied(es, pos);
        }
      } else {
        match op {
          case Upsert(v) =>
            nodes := nodes[leaf := Leaf(parent, es[..pos] + [Entry(key, v)] + es[pos..])];
            liveEntries := liveEntries + 1;
            InsertApplied(es, pos, key, v);
          case Delete =>
            assert forall x :: 0 <= x < |es| ==> es[x].key != key;
        }
      }
    }

    /** Splits an overfull leaf; its parent, if any, is the barrier. */
    method MaybeSplitLeaf(leaf: nat)
      requires |nodes| == |geo| == |hand| && root < |geo| && leaf < |nodes| && nodes[leaf].Leaf? && leaf !in active
      requires |nodes[leaf].entries| <= config.leafMaxEntries + 1 && nodes[leaf].parent == splitBarrier
      requires Sound(active + {leaf})
      modifies `nodes, `root, `geo, `hand
      ensures Repaired(old(Now()), Now(), leaf, 0, splitBarrier)
      ensures Sound(active)
    {
      hide Inv, Limits, Buffered, Stored, StructOk, HandsOk, QuietAbove, Totals, FixedAbove, Calm, Evolves;
      ghost var s := Now();
      if |nodes[leaf].entries| <= config.leafMaxEntries {
        LimitsMono(nodes, config, active + {leaf}, active);
        RepairedNot(s, leaf, 0, splitBarrier);
        return;
      }
      var parent := nodes[leaf].parent;
      ghost var over := active + {leaf};
      Hands(over);
      Sizes(over);
      LeafLevel(nodes, geo, root, leaf);
      Divide(leaf, over, 0);
      ghost var over1 := OverAfter(s, leaf, over);
      assert over1 == active + {|s.n|};
      LimitsMono(nodes, config, over1, active);
      if parent.Some? {
        ghost var s1 := Now();
        Sizes(active);
        ParentLevel(nodes, geo, root, leaf, parent.value);
        var again := MaybeSplitFrom(parent.value, active, 0);
      }
    }

    // -------------------------------------------------------------------
    // Flushing
    // -------------------------------------------------------------------

    /** The last child whose bound is not above the key. */
    method Route(id: nat, key: Key) returns (chosen: nat)
      requires id < |nodes| && nodes[id].Internal? && |nodes[id].children| >= 1 && BoundsSorted(nodes[id].children)
      ensures chosen == nodes[id].children[RouteFrom(nodes[id].children, key, 0)].id
    {
      var cs := nodes[id].children;
      chosen := cs[0].id;
      var j := 0;
      while j < |cs|
        invariant j <= |cs|
        invariant j == 0 ==> chosen == cs[0].id
        invariant j > 0 ==> chosen == cs[j - 1].id && RouteFrom(cs, key, j - 1) == RouteFrom(cs, key, 0)
      {
        if cs[j].bound.Some? && key < cs[j].bound.value {
          break;
        }
        chosen := cs[j].id;
        j := j + 1;
      }
    }

    /** Takes the first message in node id's hand into a leaf below it. */
    method Land(id: nat, leaf: nat, msg: Message<V>)
      requires |nodes| == |geo| == |hand| && root < |geo| && id < |nodes| && leaf < |nodes| && nodes[leaf].Leaf?
      requires splitBarrier == Some(id) && id in active && hand[id] != [] && hand[id][0] == msg
      requires nodes[leaf].parent == Some(id) && geo[leaf].level + 1 == geo[id].level && In(geo[leaf], msg.key)
      requires Sound(active)
      modifies `nodes, `root, `geo, `hand, `bag, `liveEntries
      ensures Drained(old(Now()), Now(), id)
      ensures Sound(active)
    {
      hide Inv, Limits, StructOk, Calm, Evolves, Drained, HandsOk, Totals, FixedAbove;
      ghost var s := Now();
      Sizes(active);
      LeafLevel(nodes, geo, root, leaf);
      assert leaf !in active by { Lowest(id, leaf); }
      Absorb(id, leaf, msg);
      ghost var s1 := Now();
      MaybeSplitLeaf(leaf);
      CalmHigher(s1, Now(), 0, s.g[id].level);
      DrainedThen(s, s1, Now(), id);
    }

    lemma Lowest(id: nat, i: nat)
      requires ActiveOk() && splitBarrier == Some(id) && id < |geo| && i < |geo| && geo[i].level < geo[id].level
      ensures i !in active
    {
    }

    method Absorb(id: nat, leaf: nat, msg: Message<V>)
      requires |nodes| == |geo| == |hand| && id < |nodes| && leaf < |nodes| && nodes[leaf].Leaf? && geo[leaf].level == 0 && leaf !in active
      requires id in active && hand[id] != [] && hand[id][0] == msg && geo[id].level == 1 && In(geo[leaf], msg.key)
      requires Sound(active)
      modifies `nodes, `hand, `bag, `liveEntries
      ensures Drained(old(Now()), Now(), id) && geo == old(geo) && |nodes| == old(|nodes|) == |hand|
      ensures nodes[leaf].Leaf? && nodes[leaf].parent == old(nodes[leaf].parent) && |nodes[leaf].entries| <= config.leafMaxEntries + 1
      ensures Sound(active + {leaf})
    {
      hide Inv, Limits, Buffered, Stored, Applied, Drained;
      ghost var s := Now();
      LeafSorted(s, leaf);
      BufferedAtLeast(nodes, leaf);
      SizeOf(leaf, active);
      ApplyToLeaf(leaf, msg.key, msg.op);
      hand := hand[id := hand[id][1..]];
      bag := bag - {msg};
      assert Now() == Landed(s, id, leaf, nodes[leaf].entries);
      LandKeeps(s, id, leaf, nodes[leaf].entries);
      LimitsUpdate(s.n, config, active, leaf, nodes[leaf], active + {leaf});
      DrainedAt(s, Now(), id, leaf);
    }

    lemma SizeOf(i: nat, over: set<nat>)
      requires Limits(nodes, config, over) && i < |nodes|
      ensures SizeOk(nodes[i], config, i in over)
    {
    }

    /** Moves the first message in node id's hand to the buffer of node t below it. */
    method Push(id: nat, t: nat, msg: Message<V>)
      requires |nodes| == |geo| == |hand| && id < |nodes| && t < |nodes| && nodes[t].Internal?
      requires hand[id] != [] && hand[id][0] == msg && |nodes[t].buffer| < config.bufferCapacity
      requires geo[t].level + 1 == geo[id].level && In(geo[t], msg.key) && id in active
      requires Sound(active)
      modifies `nodes, `hand, `pending
      ensures Drained(old(Now()), Now(), id)
      ensures Sound(active)
    {
      hide Inv, Limits, Buffered, Stored, Drained;
      ghost var s := Now();
      SizeOf(t, active);
      nodes := nodes[t := Internal(nodes[t].parent, nodes[t].children, nodes[t].buffer + [msg])];
      pending := pending + 1;
      hand := hand[id := hand[id][1..]];
      assert Now() == Pushed(s, id, t);
      PushKeeps(s, id, t);
      LimitsUpdate(s.n, config, active, t, nodes[t], active);
      DrainedAt(s, Now(), id, t);
    }

    /** Passes the first message in node id's hand one level down, flushing the child
        first when its buffer is full. */
    method DrainOne(id: nat, msg: Message<V>)
      requires |nodes| == |geo| == |hand| && root < |geo| && id < |nodes| && nodes[id].Internal?
      requires splitBarrier == Some(id) && id in active && hand[id] != [] && hand[id][0] == msg
      requires Sound(active)
      modifies `nodes, `root, `geo, `hand, `bag, `liveEntries, `pending, `splitBarrier, `active
      ensures Drained(old(Now()), Now(), id) && splitBarrier == old(splitBarrier) && active == old(active)
      ensures Sound(active)
      decreases geo[id].level, 0
    {
      hide Inv, Limits, Buffered, Stored, StructOk, Drained, Totals, Calm, FixedAbove, HandsOk, Flushed, MayFlush;
      ghost var s := Now();
      HandPlaced(s, id);
      Sizes(active);
      RoutedChild(nodes, geo, root, id, msg.key);
      var child := Route(id, msg.key);
      if nodes[child].Leaf? {
        Land(id, child, msg);
        return;
      }
      if |nodes[child].buffer| >= config.bufferCapacity {
        MayFlushBarred(s, child, id, active);
        FlushNode(child, geo[child].level);
        ghost var s1 := Now();
        StillHere(s, s1, id, child);
        Sizes(active);
        LeafLevel(nodes, geo, root, id);
        RoutedChild(nodes, geo, root, id, msg.key);
        var target := Route(id, msg.key);
        assert Disjoint(s.g) by { DisjointOf(s); }
        RoomAfterFlush(s, s1, child, target, msg.key, splitBarrier);
        Push(id, target, msg);
        ThenDrained(s, s1, Now(), id);
      } else {
        var target := Route(id, msg.key);
        Push(id, target, msg);
      }
    }

    /** Moves every buffered message of node id one level down. */
    method FlushNode(id: nat, ghost h: nat)
      requires MayFlush(Now(), id, h, splitBarrier, active)
      requires Sound(active)
      modifies `nodes, `root, `geo, `hand, `bag, `liveEntries, `pending, `splitBarrier, `active
      ensures Flushed(old(Now()), Now(), id, h, splitBarrier) && splitBarrier == old(splitBarrier) && active == old(active)
      ensures Sound(active)
      decreases geo[id].level, 1
    {
      hide Inv, Limits, Buffered, Stored, StructOk, Draining, Calm, FixedAbove, HandsOk, QuietAbove, Flushed, Repaired, Totals, MaySplit;
      ghost var s := Now();
      Sizes(active);
      LeafLevel(nodes, geo, root, id);
      if nodes[id].Leaf? {
        FlushedNot(s, id, h, splitBarrier);
        return;
      }
      SizeOf(id, active);
      ghost var active0 := active;
      var msgs, prev := BeginDrain(id);
      ghost var s1 := Now();
      DrainingStart(s1, id);
      for i := 0 to |msgs|
        invariant splitBarrier == Some(id) && active == active0 + {id}
        invariant Draining(s1, Now(), id, msgs[i..])
        invariant Sound(active)
        invariant i == 0 ==> Now() == s1
      {
        ghost var s2 := Now();
        Sizes(active);
        DrainingHolds(s1, s2, id, msgs[i..]);
        DrainOne(id, msgs[i]);
        DrainingMore(s1, s2, Now(), id, msgs[i..]);
        assert msgs[i..][1..] == msgs[i + 1..];
      }
      ghost var s2 := Now();
      Sizes(active);
      assert msgs[|msgs|..] == [];
      DrainingHolds(s1, s2, id, []);
      EndDrain(id, prev, s, active0);
      MayRepair(s, s2, id, h, prev, active0);
      if msgs == [] { TakeNothing(s, id); }
      RepairChain(id, h);
      FlushedAll(s, s2, Now(), id, h, prev);
    }

    /** Takes node id's buffer in hand and makes the node the barrier. */
    method BeginDrain(id: nat) returns (msgs: seq<Message<V>>, prev: Option<nat>)
      requires |nodes| == |geo| == |hand| && id < |nodes| && nodes[id].Internal? && id !in active
      requires splitBarrier.Some? ==> nodes[id].parent == splitBarrier
      requires Sound(active)
      modifies `nodes, `hand, `pending, `splitBarrier, `active
      ensures msgs == old(nodes[id].buffer) && prev == old(splitBarrier) && old(hand[id]) == []
      ensures Now() == Taken(old(Now()), id) && splitBarrier == Some(id) && active == old(active) + {id}
      ensures Sound(active) && hand[id] == msgs
    {
      hide Inv, Limits, Buffered, Stored, StructOk;
      ghost var s := Now();
      assert hand[id] == [];
      Sizes(active);
      SizeOf(id, active);
      BufferedAtLeast(nodes, id);
      msgs := nodes[id].buffer;
      nodes := nodes[id := Internal(nodes[id].parent, nodes[id].children, [])];
      pending := pending - |msgs|;
      prev := splitBarrier;
      splitBarrier := Some(id);
      hand := hand[id := msgs];
      if prev.Some? { ParentLevel(s.n, s.g, s.root, id, prev.value); }
      active := active + {id};
      TakeKeeps(s, id);
      LimitsUpdate(s.n, config, active - {id}, id, nodes[id], active);
    }

    /** Lifts node id's barrier once its hand is empty. */
    method EndDrain(id: nat, prev: Option<nat>, ghost s: View<V>, ghost active0: set<nat>)
      requires Sound(active) && active == active0 + {id} && id !in active0 && ActiveFits(s.g, prev, active0) && Shrinks(s.g, geo)
      requires id < |hand| && hand[id] == []
      modifies `splitBarrier, `active
      ensures splitBarrier == prev && active == active0 && Sound(active0 + {id})
    {
      hide Inv, Limits;
      splitBarrier := prev;
      active := active0;
    }

    lemma NotOver(id: nat, over: set<nat>)
      requires id < |nodes| && nodes[id].Internal? && |nodes[id].children| <= config.maxChildren
      requires Limits(nodes, config, over)
      ensures Limits(nodes, config, over - {id})
    {
      assert SizeOk(nodes[id], config, id in over);
      LimitsMono(nodes, config, over, over - {id});
    }

    /** After the parent had its turn, only the right half may still be too large. */
    lemma AfterCascade(s: View<V>, s1: View<V>, id: nat, p: nat, over: set<nat>, again: Option<nat>)
      requires ConfigOk(config) && id < |s.n| && p < |s.n| && p < |s1.n| && s.n[id].parent == Some(p)
      requires if splitBarrier == Some(p) then p in active else p !in over
      requires s.n[p].Internal? && Limits(s.n, config, over) && Size(s1.n[p]) == Size(s.n[p]) + 1 && active <= over && p != id
      requires again.None? ==> Limits(nodes, config, if splitBarrier == Some(p) then OverAfter(s, id, over) else OverAfter(s, id, over) - {p})
      requires again.Some? ==> again.value < |nodes| && nodes[again.value].Internal? && splitBarrier != Some(p)
      requires again.Some? ==> Size(nodes[again.value]) == Size(s1.n[p]) - (config.maxChildren / 2 + 1)
      requires again.Some? ==> Limits(nodes, config, OverAfter(s, id, over) - {p} + {again.value})
      ensures Limits(nodes, config, over - {id} + {|s.n|})
    {
      var right := over - {id} + {|s.n|};
      if again.None? {
        LimitsMono(nodes, config, if splitBarrier == Some(p) then OverAfter(s, id, over) else OverAfter(s, id, over) - {p}, right);
      } else {
        var over2 := OverAfter(s, id, over) - {p} + {again.value};
        assert SizeOk(s.n[p], config, p in over);
        assert SizeOk(nodes[again.value], config, again.value in over2);
        LimitsMono(nodes, config, over2, right);
      }
    }

    /** The parts of the invariant that a split does not touch directly. */
    lemma AfterSplit(s: View<V>, over: set<nat>)
      requires Evolves(s, Now()) && s.bag == bag && |s.g| == |s.hand| && |geo| == |hand| && HandsOk(s, active)
      requires forall i :: |s.hand| <= i < |hand| ==> hand[i] == []
      requires ActiveFits(s.g, splitBarrier, active)
      ensures HandsOk(Now(), active) && ActiveOk()
    {
      forall i | 0 <= i < |hand| && i !in active ensures hand[i] == [] {
        if i < |s.hand| { assert hand[i] == hand[..|s.hand|][i]; }
      }
    }
  }

  lemma RightStep(cs: seq<Child>, mid: nat, x: nat)
    requires mid <= x < |cs|
    ensures forall c: nat :: InRight(cs[..x + 1], mid, c) <==> InRight(cs[..x], mid, c) || c == cs[x].id
  {
    forall c: nat ensures InRight(cs[..x + 1], mid, c) <==> InRight(cs[..x], mid, c) || c == cs[x].id {
      if InRight(cs[..x], mid, c) {
        var y :| mid <= y < |cs[..x]| && cs[..x][y].id == c;
        assert cs[..x + 1][y].id == c;
      }
      if c == cs[x].id { assert cs[..x + 1][x].id == c; }
      if InRight(cs[..x + 1], mid, c) && c != cs[x].id {
        var y :| mid <= y < |cs[..x + 1]| && cs[..x + 1][y].id == c;
        assert cs[..x][y].id == c;
      }
    }
  }
}
