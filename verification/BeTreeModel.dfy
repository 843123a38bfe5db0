/** Data and invariants of the Bε-tree: an arena of nodes, the region of keys
    each node is responsible for, and the messages on their way to the leaves. */
module BeTreeModel {
  import opened Options

  /** Byte strings are compared lexicographically and nothing else is done with
      them; KeyOrder.dfy embeds that order in the real numbers. */
  type Key = real

  datatype Config = Config(maxChildren: nat, bufferCapacity: nat, leafMaxEntries: nat)

  ghost predicate ConfigOk(c: Config)
  {
    c.maxChildren >= 2 && c.bufferCapacity >= 2 && c.leafMaxEntries >= 2
  }

  datatype Op<+V> = Upsert(value: V) | Delete

  datatype Message<+V> = Message(key: Key, seqno: nat, op: Op<V>)

  datatype Entry<+V> = Entry(key: Key, value: V)

  /** A child pointer; `bound` is the least key of the child's subtree, None standing for minus infinity. */
  datatype Child = Child(bound: Option<Key>, id: nat)

  datatype Node<+V> =
    | Internal(parent: Option<nat>, children: seq<Child>, buffer: seq<Message<V>>)
    | Leaf(parent: Option<nat>, entries: seq<Entry<V>>)

  type Arena<V> = seq<Node<V>>

  function Kids<V>(n: Node<V>): seq<Child>
  {
    if n.Internal? then n.children else []
  }

  function Buffer<V>(n: Node<V>): seq<Message<V>>
  {
    if n.Internal? then n.buffer else []
  }

  function Entries<V>(n: Node<V>): seq<Entry<V>>
  {
    if n.Leaf? then n.entries else []
  }

  function WithParent<V>(n: Node<V>, p: Option<nat>): Node<V>
  {
    match n
    case Internal(_, cs, buf) => Internal(p, cs, buf)
    case Leaf(_, es) => Leaf(p, es)
  }

  // ---------------------------------------------------------------------
  // Regions
  // ---------------------------------------------------------------------

  /** Height above the leaves and key interval [lo, hi) of a node. */
  datatype Region = Region(level: nat, lo: Option<Key>, hi: Option<Key>)

  type Map = seq<Region>

  predicate In(r: Region, k: Key)
  {
    (r.lo.Some? ==> r.lo.value <= k) && (r.hi.Some? ==> k < r.hi.value)
  }

  predicate Within(a: Region, b: Region)
  {
    && (b.lo.Some? ==> a.lo.Some? && b.lo.value <= a.lo.value)
    && (b.hi.Some? ==> a.hi.Some? && a.hi.value <= b.hi.value)
  }

  predicate NonEmpty(r: Region)
  {
    r.lo.Some? && r.hi.Some? ==> r.lo.value < r.hi.value
  }

  predicate Before(a: Region, b: Region)
  {
    a.hi.Some? && b.lo.Some? && a.hi.value <= b.lo.value
  }

  predicate Apart(a: Region, b: Region)
  {
    Before(a, b) || Before(b, a)
  }

  /** Strictly inside the region: a key at which it can be cut in two. */
  predicate Cuts(r: Region, b: Key)
  {
    (r.lo.Some? ==> r.lo.value < b) && (r.hi.Some? ==> b < r.hi.value)
  }

  /** Some key of a nonempty region. */
  function KeyIn(r: Region): (k: Key)
    requires NonEmpty(r)
    ensures In(r, k)
  {
    if r.lo.Some? then r.lo.value else if r.hi.Some? then r.hi.value - 1.0 else 0.0
  }

  // ---------------------------------------------------------------------
  // Structure
  // ---------------------------------------------------------------------

  ghost predicate NodeOk<V>(n: Arena<V>, g: Map, root: nat, i: nat)
    requires i < |n| == |g|
  {
    && (n[i].Leaf? <==> g[i].level == 0)
    && NonEmpty(g[i])
    && (n[i].parent.None? <==> i == root)
    && (n[i].parent.Some? ==> ParentOk(n, g, i, n[i].parent.value))
    && (n[i].Internal? ==> |n[i].children| >= 1 && n[i].children[0].bound == g[i].lo)
  }

  ghost predicate ParentOk<V>(n: Arena<V>, g: Map, i: nat, p: nat)
    requires i < |n| == |g|
  {
    p < |n| && g[p].level == g[i].level + 1 && Within(g[i], g[p])
  }

  /** The children of a node tile its region in order. */
  ghost predicate ChildOk<V>(n: Arena<V>, g: Map, i: nat, j: nat)
    requires i < |n| == |g| && j < |Kids(n[i])|
  {
    var cs := Kids(n[i]);
    var c := cs[j];
    && c.id < |n| && g[c.id].level + 1 == g[i].level && n[c.id].parent == Some(i)
    && (j > 0 ==> c.bound.Some?)
    && g[c.id].lo == c.bound
    && g[c.id].hi == if j + 1 < |cs| then cs[j + 1].bound else g[i].hi
  }

  ghost predicate StructOk<V>(n: Arena<V>, g: Map, root: nat)
  {
    && |n| == |g| && root < |n| && g[root].lo.None? && g[root].hi.None?
    && (forall i :: 0 <= i < |n| ==> NodeOk(n, g, root, i))
    && (forall i, j :: 0 <= i < |n| && 0 <= j < |Kids(n[i])| ==> ChildOk(n, g, i, j))
    && Disjoint(g)
  }

  /** At one level, every key belongs to one node. */
  ghost predicate Disjoint(g: Map)
  {
    forall i, j :: 0 <= i < j < |g| && g[i].level == g[j].level ==> Apart(g[i], g[j])
  }

  lemma OneNodePerKey(g: Map, i: nat, j: nat, k: Key)
    requires Disjoint(g) && i < |g| && j < |g| && g[i].level == g[j].level && In(g[i], k) && In(g[j], k)
    ensures i == j
  {
  }

  // ---------------------------------------------------------------------
  // Routing
  // ---------------------------------------------------------------------

  /** The last child, from position j on, whose bound is not above the key. */
  function RouteFrom(cs: seq<Child>, key: Key, j: nat): (c: nat)
    requires j < |cs|
    ensures j <= c < |cs|
    ensures forall x :: j < x <= c ==> cs[x].bound.None? || cs[x].bound.value <= key
    ensures c + 1 < |cs| ==> cs[c + 1].bound.Some? && key < cs[c + 1].bound.value
    decreases |cs| - j
  {
    if j + 1 < |cs| && (cs[j + 1].bound.None? || cs[j + 1].bound.value <= key) then RouteFrom(cs, key, j + 1) else j
  }

  /** Routing a key of the node's region reaches the child responsible for it. */
  lemma RouteCovers<V>(n: Arena<V>, g: Map, root: nat, i: nat, key: Key)
    requires StructOk(n, g, root) && i < |n| && n[i].Internal? && In(g[i], key)
    ensures |n[i].children| >= 1
    ensures var c := RouteFrom(n[i].children, key, 0);
      ChildOk(n, g, i, c) && In(g[n[i].children[c].id], key)
  {
    assert NodeOk(n, g, root, i);
    var c := RouteFrom(n[i].children, key, 0);
    assert Kids(n[i]) == n[i].children;
    assert ChildOk(n, g, i, c);
    assert c + 1 < |Kids(n[i])| ==> ChildOk(n, g, i, c + 1);
  }

  /** A node sits in its parent's child list. */
  lemma ChildIndex<V>(n: Arena<V>, g: Map, root: nat, i: nat) returns (j: nat)
    requires StructOk(n, g, root) && i < |n| && n[i].parent.Some?
    ensures n[i].parent.value < |n| && n[n[i].parent.value].Internal?
    ensures j < |n[n[i].parent.value].children| && n[n[i].parent.value].children[j].id == i
    ensures ChildOk(n, g, n[i].parent.value, j)
  {
    var p := n[i].parent.value;
    assert NodeOk(n, g, root, i) && NodeOk(n, g, root, p);
    var k := KeyIn(g[i]);
    RouteCovers(n, g, root, p, k);
    j := RouteFrom(n[p].children, k, 0);
    OneNodePerKey(g, i, n[p].children[j].id, k);
  }

  /** Child bounds increase. */
  lemma {:induction false} BoundsIncrease<V>(n: Arena<V>, g: Map, root: nat, i: nat, a: nat, b: nat)
    requires StructOk(n, g, root) && i < |n| && a < b < |Kids(n[i])|
    ensures Kids(n[i])[b].bound.Some?
    ensures Kids(n[i])[a].bound.Some? ==> Kids(n[i])[a].bound.value < Kids(n[i])[b].bound.value
    decreases b - a
  {
    var cs := Kids(n[i]);
    assert ChildOk(n, g, i, a) && ChildOk(n, g, i, b);
    assert NodeOk(n, g, root, cs[a].id);
    if a + 1 < b {
      assert ChildOk(n, g, i, a + 1);
      BoundsIncrease(n, g, root, i, a + 1, b);
    }
  }
}
