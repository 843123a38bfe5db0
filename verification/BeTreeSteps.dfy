/** Steps that move messages: taking a buffer in hand, passing a message one level
    down, applying it to a leaf, and accepting a new one at the root. */
module BeTreeSteps {
  import opened BeTreeModel
  import opened BeTreeMessages
  import opened BeTreeContent
  import opened BeTreeSplit
  import opened BeTreeState

  ghost predicate SameShape<V>(n: Arena<V>, n': Arena<V>)
  {
    && |n| == |n'|
    && forall i :: 0 <= i < |n| ==> (n'[i].Leaf? <==> n[i].Leaf?) && Kids(n'[i]) == Kids(n[i]) && n'[i].parent == n[i].parent
  }

  lemma SameShapeOk<V>(n: Arena<V>, g: Map, root: nat, n': Arena<V>)
    requires StructOk(n, g, root) && SameShape(n, n')
    ensures StructOk(n', g, root)
  {
    forall i | 0 <= i < |n'| ensures NodeOk(n', g, root, i) { assert NodeOk(n, g, root, i); }
    forall i, j | 0 <= i < |n'| && 0 <= j < |Kids(n'[i])| ensures ChildOk(n', g, i, j) { assert ChildOk(n, g, i, j); }
  }

  lemma SameLeaves<V>(n: Arena<V>, g: Map, bag: set<Message<V>>, model: map<Key, V>, n': Arena<V>)
    requires ContentInv(n, g, bag, model) && SameShape(n, n') && forall i :: 0 <= i < |n| ==> Entries(n'[i]) == Entries(n[i])
    ensures ContentInv(n', g, bag, model)
  {
    hide Settled, LeafOk, Newest, Get, Outcome;
    forall i | 0 <= i < |n'| && n'[i].Leaf? ensures LeafOk(g[i], n'[i].entries) {
      assert LeafOk(g[i], n[i].entries) && Entries(n'[i]) == Entries(n[i]);
    }
    forall i, k | 0 <= i < |n'| && n'[i].Leaf? && In(g[i], k) ensures Settled(n'[i].entries, bag, model, k) {
      assert Settled(n[i].entries, bag, model, k) && Entries(n'[i]) == Entries(n[i]);
    }
  }

  function WithBuffer<V>(x: Node<V>, buf: seq<Message<V>>): Node<V>
  {
    if x.Internal? then Internal(x.parent, x.children, buf) else x
  }

  // ---------------------------------------------------------------------
  // Taking a buffer in hand
  // ---------------------------------------------------------------------

  function Taken<V>(s: View<V>, id: nat): View<V>
    requires id < |s.n| && id < |s.hand|
  {
    s.(n := s.n[id := WithBuffer(s.n[id], [])], hand := s.hand[id := Buffer(s.n[id])])
  }

  lemma TakeKeeps<V>(s: View<V>, id: nat)
    requires Inv(s) && id < |s.n| && s.n[id].Internal? && s.hand[id] == []
    ensures Inv(Taken(s, id))
    ensures Buffered(Taken(s, id).n) == Buffered(s.n) - |Buffer(s.n[id])| && Stored(Taken(s, id).n) == Stored(s.n)
  {
    hide StructOk, ContentInv, MsgInv, Buffered, Stored;
    var s' := Taken(s, id);
    SameShapeOk(s.n, s.g, s.root, s'.n);
    SameLeaves(s.n, s.g, s.bag, s.model, s'.n);
    TotalsUpdate(s.n, id, s'.n[id]);
    assert QueuesOf(s.n, s.hand)[id] == Buffer(s.n[id]) == QueuesOf(s'.n, s'.hand)[id];
    assert QueuesOf(s'.n, s'.hand) == QueuesOf(s.n, s.hand);
  }

  // ---------------------------------------------------------------------
  // One level down
  // ---------------------------------------------------------------------

  function Pushed<V>(s: View<V>, id: nat, t: nat): View<V>
    requires id < |s.n| == |s.hand| && t < |s.n| && s.hand[id] != []
  {
    s.(n := s.n[t := WithBuffer(s.n[t], Buffer(s.n[t]) + [s.hand[id][0]])], hand := s.hand[id := s.hand[id][1..]])
  }

  lemma PushKeeps<V>(s: View<V>, id: nat, t: nat)
    requires Inv(s) && id < |s.n| && t < |s.n| && s.hand[id] != [] && s.n[t].Internal?
    requires s.g[id].level == s.g[t].level + 1 && In(s.g[t], s.hand[id][0].key)
    ensures Inv(Pushed(s, id, t))
    ensures Buffered(Pushed(s, id, t).n) == Buffered(s.n) + 1 && Stored(Pushed(s, id, t).n) == Stored(s.n)
  {
    hide ContentInv, MsgInv, Buffered, Stored, ChildOk, Disjoint;
    var s' := Pushed(s, id, t);
    assert NodeOk(s.n, s.g, s.root, t);
    SameShapeOk(s.n, s.g, s.root, s'.n);
    SameLeaves(s.n, s.g, s.bag, s.model, s'.n);
    TotalsUpdate(s.n, t, s'.n[t]);
    var q := QueuesOf(s.n, s.hand);
    assert q[id][0] == s.hand[id][0];
    PushedQueues(s, id, t);
    PushDownKeepsMessages(q, s.g, s.bag, id, t, QueuesOf(s'.n, s'.hand));
  }

  lemma PushedQueues<V>(s: View<V>, id: nat, t: nat)
    requires id < |s.n| == |s.hand| && t < |s.n| && s.hand[id] != [] && s.n[t].Internal? && id != t
    ensures var q := QueuesOf(s.n, s.hand);
      |q[id]| > 0 && QueuesOf(Pushed(s, id, t).n, Pushed(s, id, t).hand) == q[id := q[id][1..]][t := q[t] + [q[id][0]]]
  {
    var s' := Pushed(s, id, t);
    var q, q' := QueuesOf(s.n, s.hand), QueuesOf(s'.n, s'.hand);
    assert q[id] == s.hand[id] + Buffer(s.n[id]);
    assert q'[id] == q[id][1..];
    assert q'[t] == s.hand[t] + (Buffer(s.n[t]) + [s.hand[id][0]]) == q[t] + [q[id][0]];
  }

  // ---------------------------------------------------------------------
  // Into a leaf
  // ---------------------------------------------------------------------

  ghost function Landed<V>(s: View<V>, id: nat, leaf: nat, es: seq<Entry<V>>): View<V>
    requires id < |s.n| == |s.hand| && leaf < |s.n| && s.hand[id] != []
  {
    s.(n := s.n[leaf := Leaf(s.n[leaf].parent, es)], hand := s.hand[id := s.hand[id][1..]], bag := s.bag - {s.hand[id][0]})
  }

  lemma LandKeeps<V>(s: View<V>, id: nat, leaf: nat, es: seq<Entry<V>>)
    requires Inv(s) && id < |s.n| && leaf < |s.n| && s.hand[id] != [] && s.n[leaf].Leaf? && s.g[id].level == 1
    requires In(s.g[leaf], s.hand[id][0].key)
    requires Applied(s.n[leaf].entries, s.hand[id][0].key, s.hand[id][0].op, es)
    ensures Inv(Landed(s, id, leaf, es))
    ensures Buffered(Landed(s, id, leaf, es).n) == Buffered(s.n)
    ensures Stored(Landed(s, id, leaf, es).n) == Stored(s.n) - |s.n[leaf].entries| + |es|
  {
    hide ContentInv, MsgInv, Buffered, Stored, ChildOk, Applied;
    var s' := Landed(s, id, leaf, es);
    assert Disjoint(s.g);
    SameShapeOk(s.n, s.g, s.root, s'.n);
    TotalsUpdate(s.n, leaf, s'.n[leaf]);
    var q := QueuesOf(s.n, s.hand);
    assert q[id] == s.hand[id] + Buffer(s.n[id]);
    assert QueuesOf(s'.n, s'.hand)[id] == q[id][1..];
    assert QueuesOf(s'.n, s'.hand) == q[id := q[id][1..]];
    PopKeepsMessages(q, s.g, s.bag, id, QueuesOf(s'.n, s'.hand));
    LeavesAtZero(s.n, s.g, s.root);
    ApplyKeepsContent(s.n, s.g, s.bag, s.model, leaf, s.hand[id][0], es);
  }

  lemma LeavesAtZero<V>(n: Arena<V>, g: Map, root: nat)
    requires StructOk(n, g, root)
    ensures forall i :: 0 <= i < |n| && n[i].Leaf? ==> g[i].level == 0
  {
    forall i | 0 <= i < |n| && n[i].Leaf? ensures g[i].level == 0 { assert NodeOk(n, g, root, i); }
  }

  // ---------------------------------------------------------------------
  // New operations
  // ---------------------------------------------------------------------

  ghost function Enqueued<V>(s: View<V>, m: Message<V>): View<V>
    requires s.root < |s.n|
  {
    s.(n := s.n[s.root := WithBuffer(s.n[s.root], Buffer(s.n[s.root]) + [m])], bag := s.bag + {m}, model := Put(s.model, m.key, m.op))
  }

  lemma EnqueueKeeps<V>(s: View<V>, m: Message<V>)
    requires Inv(s) && s.n[s.root].Internal? && s.hand[s.root] == [] && forall x :: x in s.bag ==> x.seqno < m.seqno
    ensures Inv(Enqueued(s, m))
    ensures Buffered(Enqueued(s, m).n) == Buffered(s.n) + 1 && Stored(Enqueued(s, m).n) == Stored(s.n)
  {
    hide ContentInv, MsgInv, Buffered, Stored, ChildOk, Put;
    var s' := Enqueued(s, m);
    assert NodeOk(s.n, s.g, s.root, s.root);
    SameShapeOk(s.n, s.g, s.root, s'.n);
    SameLeaves(s.n, s.g, s.bag, s.model, s'.n);
    TotalsUpdate(s.n, s.root, s'.n[s.root]);
    var q := QueuesOf(s.n, s.hand);
    assert QueuesOf(s'.n, s'.hand)[s.root] == Buffer(s.n[s.root]) + [m] == q[s.root] + [m];
    assert QueuesOf(s'.n, s'.hand) == q[s.root := q[s.root] + [m]];
    forall i | 0 <= i < |s.g| ensures s.g[i].level <= s.g[s.root].level { LevelBelowRoot(s.n, s.g, s.root, i); }
    EnqueueKeepsMessages(q, s.g, s.bag, s.root, m);
    EnqueueKeepsContent(s'.n, s.g, s.bag, s.model, m);
  }

  /** A tree whose root is a leaf has nothing pending. */
  lemma LeafRootIsQuiet<V>(s: View<V>)
    requires Inv(s) && s.n[s.root].Leaf?
    ensures s.bag == {}
  {
    assert NodeOk(s.n, s.g, s.root, s.root);
    forall m | m in s.bag ensures false {
      assert Pending(QueuesOf(s.n, s.hand), m);
      var i :| 0 <= i < |s.n| && m in QueuesOf(s.n, s.hand)[i];
      LevelBelowRoot(s.n, s.g, s.root, i);
    }
  }

  function AppliedNow<V>(s: View<V>, k: Key, op: Op<V>, es: seq<Entry<V>>): View<V>
    requires s.root < |s.n|
  {
    s.(n := s.n[s.root := Leaf(s.n[s.root].parent, es)], model := Put(s.model, k, op))
  }

  lemma ApplyNowKeeps<V>(s: View<V>, k: Key, op: Op<V>, es: seq<Entry<V>>)
    requires Inv(s) && s.n[s.root].Leaf? && Applied(s.n[s.root].entries, k, op, es)
    ensures Inv(AppliedNow(s, k, op, es))
    ensures Buffered(AppliedNow(s, k, op, es).n) == Buffered(s.n)
    ensures Stored(AppliedNow(s, k, op, es).n) == Stored(s.n) - |s.n[s.root].entries| + |es|
  {
    hide ContentInv, MsgInv, Buffered, Stored, ChildOk, NodeOk, Applied, Put;
    var s' := AppliedNow(s, k, op, es);
    SameShapeOk(s.n, s.g, s.root, s'.n);
    TotalsUpdate(s.n, s.root, s'.n[s.root]);
    assert QueuesOf(s'.n, s'.hand) == QueuesOf(s.n, s.hand);
    LeafRootIsQuiet(s);
    LeavesAtZero(s.n, s.g, s.root);
    ApplyNowKeepsContent(s.n, s.g, s.model, s.root, k, op, es);
  }
}
