/** The whole state of a Bε-tree as one value, its invariant, and the steps that keep it. */
module BeTreeState {
  import opened Options
  import opened BeTreeModel
  import opened BeTreeMessages
  import opened BeTreeContent
  import opened BeTreeSplit

  /** `n` and `root` are the tree. The rest is what it stands for: the region of
      each node, the messages taken from a buffer but not yet passed on, all
      messages under way, and the map the tree represents. */
  datatype View<V> = View(n: Arena<V>, root: nat, g: Map, hand: Queues<V>, ghost bag: set<Message<V>>, model: map<Key, V>)

  ghost function QueuesOf<V>(n: Arena<V>, hand: Queues<V>): Queues<V>
    requires |hand| == |n|
  {
    seq(|n|, i requires 0 <= i < |n| => hand[i] + Buffer(n[i]))
  }

  ghost predicate Inv<V>(s: View<V>)
  {
    && StructOk(s.n, s.g, s.root)
    && |s.hand| == |s.n|
    && MsgInv(QueuesOf(s.n, s.hand), s.g, s.bag)
    && ContentInv(s.n, s.g, s.bag, s.model)
  }

  /** Only nodes being drained have messages in hand. */
  ghost predicate HandsOk<V>(s: View<V>, active: set<nat>)
  {
    forall i :: 0 <= i < |s.hand| && i !in active ==> s.hand[i] == []
  }

  // ---------------------------------------------------------------------
  // Size limits and totals
  // ---------------------------------------------------------------------

  /** The limits of one node; `over` lifts the upper limit on children or entries. */
  ghost predicate SizeOk<V>(x: Node<V>, c: Config, over: bool)
  {
    match x
    case Internal(_, cs, buf) =>
      && |buf| <= c.bufferCapacity
      && (over || |cs| <= c.maxChildren)
      && (c.maxChildren >= 3 ==> |cs| >= 2)
    case Leaf(_, es) => over || |es| <= c.leafMaxEntries
  }

  ghost predicate Limits<V>(n: Arena<V>, c: Config, over: set<nat>)
  {
    forall i :: 0 <= i < |n| ==> SizeOk(n[i], c, i in over)
  }

  /** Messages in all buffers. */
  ghost function Buffered<V>(n: Arena<V>): nat
  {
    if n == [] then 0 else Buffered(n[..|n| - 1]) + |Buffer(n[|n| - 1])|
  }

  /** Entries in all leaves. */
  ghost function Stored<V>(n: Arena<V>): nat
  {
    if n == [] then 0 else Stored(n[..|n| - 1]) + |Entries(n[|n| - 1])|
  }

  lemma {:induction false} TotalsUpdate<V>(n: Arena<V>, i: nat, x: Node<V>)
    requires i < |n|
    ensures Buffered(n[i := x]) == Buffered(n) - |Buffer(n[i])| + |Buffer(x)|
    ensures Stored(n[i := x]) == Stored(n) - |Entries(n[i])| + |Entries(x)|
    decreases |n|
  {
    var t := n[..|n| - 1];
    if i == |n| - 1 {
      assert n[i := x][..|n| - 1] == t;
    } else {
      TotalsUpdate(t, i, x);
      assert n[i := x][..|n| - 1] == t[i := x];
    }
  }

  lemma {:induction false} TotalsAgree<V>(n: Arena<V>, n': Arena<V>)
    requires |n| == |n'| && forall i :: 0 <= i < |n| ==> Buffer(n'[i]) == Buffer(n[i]) && Entries(n'[i]) == Entries(n[i])
    ensures Buffered(n') == Buffered(n) && Stored(n') == Stored(n)
    decreases |n|
  {
    if n != [] { TotalsAgree(n[..|n| - 1], n'[..|n| - 1]); }
  }

  lemma TotalsSnoc<V>(n: Arena<V>, x: Node<V>)
    ensures Buffered(n + [x]) == Buffered(n) + |Buffer(x)| && Stored(n + [x]) == Stored(n) + |Entries(x)|
  {
    assert (n + [x])[..|n|] == n;
  }

  lemma {:induction false} BufferedAtLeast<V>(n: Arena<V>, i: nat)
    requires i < |n|
    ensures |Buffer(n[i])| <= Buffered(n) && |Entries(n[i])| <= Stored(n)
    decreases |n|
  {
    if i < |n| - 1 { BufferedAtLeast(n[..|n| - 1], i); }
  }

  lemma {:induction false} NothingBuffered<V>(n: Arena<V>)
    requires forall i :: 0 <= i < |n| ==> Buffer(n[i]) == []
    ensures Buffered(n) == 0
    decreases |n|
  {
    if n != [] { NothingBuffered(n[..|n| - 1]); }
  }

  // ---------------------------------------------------------------------
  // What a step may change
  // ---------------------------------------------------------------------

  /** Nodes stay at their level, and regions only shrink. */
  ghost predicate Shrinks(g: Map, g': Map)
  {
    |g| <= |g'| && forall i :: 0 <= i < |g| ==> g'[i].level == g[i].level && Within(g'[i], g[i])
  }

  lemma ShrinksTrans(a: Map, b: Map, c: Map)
    requires Shrinks(a, b) && Shrinks(b, c)
    ensures Shrinks(a, c)
  {
  }

  /** From level h up no buffer changes, and new nodes have empty ones. */
  ghost predicate Calm<V>(s: View<V>, s': View<V>, h: nat)
    requires |s'.n| == |s'.g|
  {
    forall i :: 0 <= i < |s'.n| && s'.g[i].level >= h ==>
      Buffer(s'.n[i]) == if i < |s.n| then Buffer(s.n[i]) else []
  }

  /** Above level l nothing is added, and regions stay. */
  ghost predicate FixedAbove<V>(s: View<V>, s': View<V>, l: nat)
  {
    && s'.root == s.root && |s.g| <= |s'.g|
    && forall i :: 0 <= i < |s'.g| && s'.g[i].level > l ==> i < |s.g| && s'.g[i] == s.g[i]
  }

  lemma CalmTrans<V>(a: View<V>, b: View<V>, c: View<V>, h: nat)
    requires |b.n| == |b.g| && |c.n| == |c.g| && |a.n| <= |b.n| && Shrinks(b.g, c.g)
    requires Calm(a, b, h) && Calm(b, c, h)
    ensures Calm(a, c, h)
  {
  }

  /** A step that moves messages down or divides nodes: the represented map is
      untouched and nodes keep what they hold in hand. */
  ghost predicate Evolves<V>(s: View<V>, s': View<V>)
  {
    && Shrinks(s.g, s'.g) && s'.model == s.model && s'.bag <= s.bag
    && |s.hand| <= |s'.hand| && s'.hand[..|s.hand|] == s.hand
  }

  lemma EvolvesTrans<V>(a: View<V>, b: View<V>, c: View<V>)
    requires Evolves(a, b) && Evolves(b, c)
    ensures Evolves(a, c)
  {
    assert c.hand[..|a.hand|] == c.hand[..|b.hand|][..|a.hand|];
  }

  /** Below level l nodes keep their region, children and payload. */
  ghost predicate SameBelow<V>(s: View<V>, s': View<V>, l: nat)
    requires |s.n| == |s.g| && |s'.n| == |s'.g|
  {
    && |s.n| <= |s'.n|
    && forall i :: 0 <= i < |s.n| && s.g[i].level < l ==>
         && s'.g[i] == s.g[i] && (s'.n[i].Leaf? <==> s.n[i].Leaf?)
         && Kids(s'.n[i]) == Kids(s.n[i]) && Buffer(s'.n[i]) == Buffer(s.n[i]) && Entries(s'.n[i]) == Entries(s.n[i])
  }

  // ---------------------------------------------------------------------
  // Empty buffers above a node
  // ---------------------------------------------------------------------

  ghost predicate Above(g: Map, id: nat, barred: bool, y: nat)
    requires id < |g| && y < |g|
  {
    g[y].level >= g[id].level && !Apart(g[y], g[id]) && (barred ==> g[y].level <= g[id].level)
  }

  /** From level h up, the node and its ancestors (unless `barred`) have empty buffers. */
  ghost predicate QuietAbove<V>(s: View<V>, id: nat, h: nat, barred: bool)
    requires id < |s.g| == |s.n|
  {
    forall y :: 0 <= y < |s.n| && s.g[y].level >= h && Above(s.g, id, barred, y) ==> Buffer(s.n[y]) == []
  }

  lemma ApartMono(a: Region, b: Region, a': Region, b': Region)
    requires Apart(a, b) && Within(a', a) && Within(b', b)
    ensures Apart(a', b')
  {
  }

  /** Quiet stays quiet when regions shrink and no buffer changes. */
  lemma QuietMoves<V>(s: View<V>, s': View<V>, id: nat, t: nat, h: nat, barred: bool)
    requires id < |s.g| == |s.n| && t < |s'.g| == |s'.n| && QuietAbove(s, id, h, barred)
    requires Shrinks(s.g, s'.g) && Calm(s, s', h) && Within(s'.g[t], s.g[id]) && s'.g[t].level == s.g[id].level
    ensures QuietAbove(s', t, h, barred)
  {
    forall y | 0 <= y < |s'.n| && s'.g[y].level >= h && Above(s'.g, t, barred, y) ensures Buffer(s'.n[y]) == [] {
      if y < |s.n| && Apart(s.g[y], s.g[id]) { ApartMono(s.g[y], s.g[id], s'.g[y], s'.g[t]); }
    }
  }

  /** A node at the same level or higher that shares a key contains the whole region. */
  lemma {:induction false} AncestorContains<V>(n: Arena<V>, g: Map, root: nat, i: nat, y: nat)
    requires StructOk(n, g, root) && i < |n| && y < |n| && g[y].level >= g[i].level && !Apart(g[y], g[i])
    ensures Within(g[i], g[y])
    decreases g[y].level - g[i].level
  {
    if g[y].level > g[i].level {
      assert NodeOk(n, g, root, i);
      LevelBelowRoot(n, g, root, y);
      var p := n[i].parent.value;
      assert ParentOk(n, g, i, p);
      if Apart(g[y], g[p]) { ApartMono(g[y], g[p], g[y], g[i]); }
      AncestorContains(n, g, root, p, y);
    }
  }

  lemma QuietParent<V>(s: View<V>, id: nat, p: nat, h: nat)
    requires StructOk(s.n, s.g, s.root) && id < |s.n| && s.n[id].parent == Some(p) && QuietAbove(s, id, h, false)
    ensures p < |s.n| && QuietAbove(s, p, h, false)
  {
    assert NodeOk(s.n, s.g, s.root, id) && ParentOk(s.n, s.g, id, p);
    forall y | 0 <= y < |s.n| && s.g[y].level >= h && Above(s.g, p, false, y) ensures Buffer(s.n[y]) == [] {
      AncestorContains(s.n, s.g, s.root, p, y);
      assert Within(s.g[id], s.g[y]);
    }
  }

  // ---------------------------------------------------------------------
  // Splitting
  // ---------------------------------------------------------------------

  ghost predicate BuffersCut<V>(n: Arena<V>, id: nat, b: Key, n': Arena<V>)
    requires id < |n| < |n'|
  {
    && Buffer(n'[id]) == Below(Buffer(n[id]), b) && Buffer(n'[|n|]) == AtLeast(Buffer(n[id]), b)
    && (forall i :: 0 <= i < |n| && i != id ==> Buffer(n'[i]) == Buffer(n[i]))
    && (forall i :: |n| < i < |n'| ==> Buffer(n'[i]) == [])
  }

  /** Node id has been cut at b, below its parent or with a new root above. */
  ghost predicate SplitShape<V>(n: Arena<V>, g: Map, root: nat, id: nat, b: Key, mid: nat, n': Arena<V>, g': Map, root': nat)
    requires id < |n| == |g|
  {
    match n[id].parent
    case None => SplitRoot(n, g, id, b, mid, n', g') && root' == |n| + 1
    case Some(p) =>
      p < |n| && root' == root && exists j: nat :: SplitUnder(n, g, id, p, j, b, mid, n', g')
  }

  ghost predicate SplitStep<V>(s: View<V>, s': View<V>, id: nat, b: Key, mid: nat)
    requires id < |s.n| == |s.g|
  {
    && |s.n| + 1 <= |s'.n| <= |s.n| + 2
    && SplitShape(s.n, s.g, s.root, id, b, mid, s'.n, s'.g, s'.root)
    && EntriesCut(s.n, id, b, s'.n) && BuffersCut(s.n, id, b, s'.n)
    && s'.hand == s.hand + seq(|s'.n| - |s.n|, i => [])
    && s'.bag == s.bag && s'.model == s.model
  }

  /** How the regions change in a split. */
  ghost predicate RegionsCut(g: Map, id: nat, b: Key, g': Map)
    requires id < |g|
  {
    && Cuts(g[id], b)
    && |g| + 1 <= |g'| <= |g| + 2
    && g'[..|g|] == g[id := g[id].(hi := Some(b))] && g'[|g|] == Region(g[id].level, Some(b), g[id].hi)
    && (|g'| == |g| + 2 ==> g'[|g| + 1].level == g[id].level + 1)
  }

  lemma SplitKeepsStruct<V>(n: Arena<V>, g: Map, root: nat, id: nat, b: Key, mid: nat, n': Arena<V>, g': Map, root': nat)
    requires StructOk(n, g, root) && id < |n| && SplitShape(n, g, root, id, b, mid, n', g', root')
    ensures StructOk(n', g', root') && RegionsCut(g, id, b, g')
    ensures |g'| == |n'| == |n| + if n[id].parent.Some? then 1 else 2
  {
    match n[id].parent {
      case None => RootShape(n, g, root, id, b, mid, n', g');
      case Some(p) =>
        var j: nat :| SplitUnder(n, g, id, p, j, b, mid, n', g');
        SplitUnderOk(n, g, root, id, p, j, b, mid, n', g');
    }
  }

  lemma RootShape<V>(n: Arena<V>, g: Map, root: nat, id: nat, b: Key, mid: nat, n': Arena<V>, g': Map)
    requires StructOk(n, g, root) && id < |n| && n[id].parent.None? && SplitRoot(n, g, id, b, mid, n', g')
    ensures StructOk(n', g', |n| + 1)
  {
    assert NodeOk(n, g, root, id);
    SplitRootOk(n, g, root, b, mid, n', g');
  }

  lemma SplitKeepsMessages<V>(s: View<V>, s': View<V>, id: nat, b: Key)
    requires |s.n| == |s.g| == |s.hand| && |s'.n| == |s'.g| && id < |s.n| < |s'.n| && s.hand[id] == []
    requires MsgInv(QueuesOf(s.n, s.hand), s.g, s.bag) && BuffersCut(s.n, id, b, s'.n)
    requires RegionsCut(s.g, id, b, s'.g) && s'.hand == s.hand + seq(|s'.n| - |s.n|, i => []) && s'.bag == s.bag
    ensures MsgInv(QueuesOf(s'.n, s'.hand), s'.g, s'.bag)
  {
    hide MsgInv, BuffersCut, CutQueues;
    var q := QueuesOf(s.n, s.hand);
    var q' := QueuesOf(s'.n, s'.hand);
    var low := s'.g[..|s.g| + 1];
    assert low[..|s.g|] == s'.g[..|s.g|];
    CutKeepsMessages(q, s.g, s.bag, id, b, low);
    CutQueuesOf(s, s', id, b);
    if |s'.n| == |s.n| + 1 {
      assert low == s'.g;
      assert q' == CutQueues(q, id, b);
    } else {
      EmptyNodeKeepsMessages(CutQueues(q, id, b), low, s.bag, s'.g[|s.g| + 1]);
      assert s'.g == low + [s'.g[|s.g| + 1]];
      assert q' == CutQueues(q, id, b) + [[]];
    }
  }

  lemma CutQueuesOf<V>(s: View<V>, s': View<V>, id: nat, b: Key)
    requires |s.n| == |s.hand| && id < |s.n| < |s'.n| && s.hand[id] == [] && BuffersCut(s.n, id, b, s'.n)
    requires s'.hand == s.hand + seq(|s'.n| - |s.n|, i => [])
    ensures |QueuesOf(s'.n, s'.hand)| == |s'.n| && |CutQueues(QueuesOf(s.n, s.hand), id, b)| == |s.n| + 1
    ensures forall i :: 0 <= i <= |s.n| ==> QueuesOf(s'.n, s'.hand)[i] == CutQueues(QueuesOf(s.n, s.hand), id, b)[i]
    ensures forall i :: |s.n| < i < |s'.n| ==> QueuesOf(s'.n, s'.hand)[i] == []
  {
    var q := QueuesOf(s.n, s.hand);
    assert q[id] == Buffer(s.n[id]);
    forall i | 0 <= i < |s'.n| && i != id && i != |s.n| ensures QueuesOf(s'.n, s'.hand)[i] == (if i < |s.n| then q[i] else []) {
    }
  }

  lemma SplitKeepsTotals<V>(n: Arena<V>, id: nat, b: Key, n': Arena<V>)
    requires id < |n| && |n| + 1 <= |n'| <= |n| + 2 && EntriesCut(n, id, b, n') && BuffersCut(n, id, b, n')
    ensures Buffered(n') == Buffered(n) && Stored(n') == Stored(n)
  {
    hide Below, AtLeast, Buffered, Stored;
    CutLength(Buffer(n[id]), b);
    var low := n'[..|n|];
    TotalsUpdate(n, id, n'[id]);
    TotalsAgree(n[id := n'[id]], low);
    TotalsSnoc(low, n'[|n|]);
    if |n'| == |n| + 1 {
      assert n' == low + [n'[|n|]];
    } else {
      TotalsSnoc(low + [n'[|n|]], n'[|n| + 1]);
      assert n' == low + [n'[|n|]] + [n'[|n| + 1]];
    }
  }

  /** A split keeps the invariant and the totals. */
  lemma SplitKeeps<V>(s: View<V>, s': View<V>, id: nat, b: Key, mid: nat)
    requires Inv(s) && id < |s.n| && s.hand[id] == [] && SplitStep(s, s', id, b, mid)
    ensures Inv(s') && RegionsCut(s.g, id, b, s'.g) && |s'.g| == |s.g| + if s.n[id].parent.Some? then 1 else 2
    ensures Buffered(s'.n) == Buffered(s.n) && Stored(s'.n) == Stored(s.n)
  {
    hide StructOk, MsgInv, ContentInv, SplitShape, EntriesCut, BuffersCut, QueuesOf, Buffered, Stored, RegionsCut;
    assert |s.n| == |s.g| by { InvSizes(s); }
    SplitKeepsStruct(s.n, s.g, s.root, id, b, mid, s'.n, s'.g, s'.root);
    SplitKeepsMessages(s, s', id, b);
    CutContent(s, s', id, b);
    SplitKeepsTotals(s.n, id, b, s'.n);
  }

  lemma CutContent<V>(s: View<V>, s': View<V>, id: nat, b: Key)
    requires ContentInv(s.n, s.g, s.bag, s.model) && id < |s.n| < |s'.n| == |s'.g| && EntriesCut(s.n, id, b, s'.n)
    requires RegionsCut(s.g, id, b, s'.g) && s'.bag == s.bag && s'.model == s.model
    ensures ContentInv(s'.n, s'.g, s'.bag, s'.model)
  {
    hide ContentInv, EntriesCut;
    CutKeepsContent(s.n, s.g, s.bag, s.model, id, b, s'.n, s'.g);
  }

  lemma InvSizes<V>(s: View<V>)
    requires Inv(s)
    ensures |s.n| == |s.g| == |s.hand| && s.root < |s.n|
  {
  }

  /** What else a split leaves alone. */
  lemma SplitFrame<V>(s: View<V>, s': View<V>, id: nat, b: Key, mid: nat, h: nat)
    requires id < |s.n| == |s.g| == |s.hand| && |s'.n| == |s'.g| && SplitStep(s, s', id, b, mid) && RegionsCut(s.g, id, b, s'.g)
    requires |s'.g| == |s.g| + if s.n[id].parent.Some? then 1 else 2
    ensures Evolves(s, s')
    ensures s.n[id].parent.Some? ==> FixedAbove(s, s', s.g[id].level)
    ensures h > s.g[id].level || Buffer(s.n[id]) == [] ==> Calm(s, s', h)
    ensures forall i :: |s.hand| <= i < |s'.hand| ==> s'.hand[i] == []
  {
    hide EntriesCut, Below, AtLeast;
    assert forall i :: 0 <= i < |s.g| ==> s'.g[i] == s'.g[..|s.g|][i];
    CutLength(Buffer(s.n[id]), b);
  }

  lemma SplitBelow<V>(s: View<V>, s': View<V>, id: nat, b: Key, mid: nat)
    requires StructOk(s.n, s.g, s.root) && id < |s.n| && |s'.n| == |s'.g| && SplitStep(s, s', id, b, mid) && RegionsCut(s.g, id, b, s'.g)
    ensures SameBelow(s, s', s.g[id].level)
  {
    hide ChildOk, Below, AtLeast, Cuts, Apart;
    assert NodeOk(s.n, s.g, s.root, id);
    forall i | 0 <= i < |s.n| && s.g[i].level < s.g[id].level
      ensures && s'.g[i] == s.g[i] && (s'.n[i].Leaf? <==> s.n[i].Leaf?)
              && Kids(s'.n[i]) == Kids(s.n[i]) && Buffer(s'.n[i]) == Buffer(s.n[i]) && Entries(s'.n[i]) == Entries(s.n[i])
    {
      assert s'.g[i] == s'.g[..|s.g|][i];
      assert RestKept(s.n, s.g, id, b, i, s'.n);
    }
  }
}
