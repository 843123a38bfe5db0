/** Messages on their way down, and what the tree means: for each key the newest
    pending message decides, and the leaf entry decides when none is pending. */
module BeTreeMessages {
  import opened Options
  import opened BeTreeModel

  type Queues<V> = seq<seq<Message<V>>>

  /** Messages for one key appear oldest first. */
  ghost predicate Ordered<V>(s: seq<Message<V>>)
  {
    forall x, y :: 0 <= x < y < |s| && s[x].key == s[y].key ==> s[x].seqno < s[y].seqno
  }

  ghost predicate Placed<V>(r: Region, s: seq<Message<V>>, bag: set<Message<V>>)
  {
    forall m :: m in s ==> In(r, m.key) && m in bag
  }

  ghost predicate Older<V>(below: seq<Message<V>>, above: seq<Message<V>>)
  {
    forall a, c :: a in above && c in below && a.key == c.key ==> c.seqno < a.seqno
  }

  /** Where the pending messages are: q[i] holds those of node i, in order. */
  ghost predicate MsgInv<V>(q: Queues<V>, g: Map, bag: set<Message<V>>)
  {
    && |q| == |g|
    && (forall i :: 0 <= i < |q| ==> Placed(g[i], q[i], bag) && Ordered(q[i]))
    && (forall i :: 0 <= i < |q| && g[i].level == 0 ==> q[i] == [])
    && (forall i, j :: 0 <= i < |q| && 0 <= j < |q| && g[i].level > g[j].level ==> Older(q[j], q[i]))
    && (forall m :: m in bag ==> Pending(q, m))
  }

  ghost predicate Pending<V>(q: Queues<V>, m: Message<V>)
  {
    exists i :: 0 <= i < |q| && m in q[i]
  }

  // ---------------------------------------------------------------------
  // Cutting a queue at a key
  // ---------------------------------------------------------------------

  function Below<V>(s: seq<Message<V>>, b: Key): seq<Message<V>>
  {
    if s == [] then [] else Below(s[..|s| - 1], b) + if s[|s| - 1].key < b then [s[|s| - 1]] else []
  }

  function AtLeast<V>(s: seq<Message<V>>, b: Key): seq<Message<V>>
  {
    if s == [] then [] else AtLeast(s[..|s| - 1], b) + if s[|s| - 1].key >= b then [s[|s| - 1]] else []
  }

  lemma {:induction false} CutMembers<V>(s: seq<Message<V>>, b: Key, m: Message<V>)
    ensures m in Below(s, b) <==> m in s && m.key < b
    ensures m in AtLeast(s, b) <==> m in s && m.key >= b
    decreases |s|
  {
    if s != [] {
      CutMembers(s[..|s| - 1], b, m);
      assert s == s[..|s| - 1] + [s[|s| - 1]];
    }
  }

  lemma {:induction false} CutOrdered<V>(s: seq<Message<V>>, b: Key)
    requires Ordered(s)
    ensures Ordered(Below(s, b)) && Ordered(AtLeast(s, b))
    decreases |s|
  {
    if s != [] {
      var t := s[..|s| - 1];
      var last := s[|s| - 1];
      CutOrdered(t, b);
      forall x | 0 <= x < |Below(t, b)| && Below(t, b)[x].key == last.key ensures Below(t, b)[x].seqno < last.seqno {
        CutMembers(t, b, Below(t, b)[x]);
      }
      forall x | 0 <= x < |AtLeast(t, b)| && AtLeast(t, b)[x].key == last.key ensures AtLeast(t, b)[x].seqno < last.seqno {
        CutMembers(t, b, AtLeast(t, b)[x]);
      }
    }
  }

  lemma {:induction false} CutLength<V>(s: seq<Message<V>>, b: Key)
    ensures |Below(s, b)| + |AtLeast(s, b)| == |s|
    decreases |s|
  {
    if s != [] { CutLength(s[..|s| - 1], b); }
  }

  /** The queues after node id has been cut at b. */
  function CutQueues<V>(q: Queues<V>, id: nat, b: Key): Queues<V>
    requires id < |q|
  {
    q[id := Below(q[id], b)] + [AtLeast(q[id], b)]
  }

  lemma CutKeepsMessages<V>(q: Queues<V>, g: Map, bag: set<Message<V>>, id: nat, b: Key, g': Map)
    requires MsgInv(q, g, bag) && id < |q| && |g'| == |g| + 1
    requires g'[..|g|] == g[id := g[id].(hi := Some(b))] && g'[|g|] == Region(g[id].level, Some(b), g[id].hi)
    ensures MsgInv(CutQueues(q, id, b), g', bag)
  {
    hide Below, AtLeast, Ordered, Older;
    var q' := CutQueues(q, id, b);
    CutOrdered(q[id], b);
    CutLength(q[id], b);
    assert forall i :: 0 <= i < |g| ==> g'[i] == g'[..|g|][i];
    forall i | 0 <= i < |q'| ensures Placed(g'[i], q'[i], bag) && Ordered(q'[i]) {
      var i0 := if i == |q| then id else i;
      assert Placed(g[i0], q[i0], bag);
      forall m: Message<V> | m in q'[i] ensures In(g'[i], m.key) && m in bag { CutMembers(q[id], b, m); }
    }
    forall i, j | 0 <= i < |q'| && 0 <= j < |q'| && g'[i].level > g'[j].level ensures Older(q'[j], q'[i]) {
      var i0, j0 := if i == |q| then id else i, if j == |q| then id else j;
      assert Older(q[j0], q[i0]);
      forall m: Message<V> ensures m in q'[i] ==> m in q[i0] { CutMembers(q[id], b, m); }
      forall m: Message<V> ensures m in q'[j] ==> m in q[j0] { CutMembers(q[id], b, m); }
      OlderParts(q[j0], q[i0], q'[j], q'[i]);
    }
    forall m | m in bag ensures Pending(q', m) {
      assert Pending(q, m);
      var i :| 0 <= i < |q| && m in q[i];
      CutMembers(q[id], b, m);
      assert if i != id then m in q'[i] else if m.key < b then m in q'[id] else m in q'[|q|];
    }
  }

  lemma OlderParts<V>(below: seq<Message<V>>, above: seq<Message<V>>, below': seq<Message<V>>, above': seq<Message<V>>)
    requires Older(below, above)
    requires forall m :: m in below' ==> m in below
    requires forall m :: m in above' ==> m in above
    ensures Older(below', above')
  {
  }

  /** A fresh node without messages. */
  lemma EmptyNodeKeepsMessages<V>(q: Queues<V>, g: Map, bag: set<Message<V>>, r: Region)
    requires MsgInv(q, g, bag)
    ensures MsgInv(q + [[]], g + [r], bag)
  {
    var q', g' := q + [[]], g + [r];
    forall i, j | 0 <= i < |q'| && 0 <= j < |q'| && g'[i].level > g'[j].level ensures Older(q'[j], q'[i]) {
      if i < |q| && j < |q| { assert Older(q[j], q[i]); }
    }
    forall m | m in bag ensures Pending(q', m) {
      var i :| 0 <= i < |q| && m in q[i];
      assert m in q'[i];
    }
  }

  // ---------------------------------------------------------------------
  // Moving messages
  // ---------------------------------------------------------------------

  /** What stands behind a message in its queue is newer, if for the same key. */
  lemma FirstIsOldest<V>(s: seq<Message<V>>)
    requires s != [] && Ordered(s)
    ensures Ordered(s[1..])
    ensures forall x :: x in s[1..] && x.key == s[0].key ==> s[0].seqno < x.seqno
    ensures forall x :: x in s <==> x == s[0] || x in s[1..]
  {
    assert s == [s[0]] + s[1..];
    forall x | x in s[1..] && x.key == s[0].key ensures s[0].seqno < x.seqno {
      var y :| 0 <= y < |s[1..]| && s[1..][y] == x;
      assert s[y + 1] == x;
    }
  }

  /** What stands behind the first message of a node, or anywhere not below that
      node, is newer than it, if for the same key. */
  lemma NewerThanFirst<V>(q: Queues<V>, g: Map, bag: set<Message<V>>, id: nat, i: nat, x: Message<V>)
    requires MsgInv(q, g, bag) && Disjoint(g) && id < |q| && q[id] != [] && i < |q| && g[i].level >= g[id].level
    requires x in (if i == id then q[id][1..] else q[i]) && x.key == q[id][0].key
    ensures q[id][0].seqno < x.seqno
  {
    FirstIsOldest(q[id]);
    assert Placed(g[i], q[i], bag) && Placed(g[id], q[id], bag);
    if i != id {
      if g[i].level == g[id].level { OneNodePerKey(g, i, id, x.key); } else { assert Older(q[id], q[i]); }
    }
  }

  /** The oldest message of node id moves to the end of its child's queue. */
  lemma PushDownKeepsMessages<V>(q: Queues<V>, g: Map, bag: set<Message<V>>, id: nat, t: nat, q': Queues<V>)
    requires MsgInv(q, g, bag) && Disjoint(g) && id < |q| && t < |q| && q[id] != []
    requires g[id].level == g[t].level + 1 && g[t].level > 0 && In(g[t], q[id][0].key)
    requires q' == q[id := q[id][1..]][t := q[t] + [q[id][0]]]
    ensures MsgInv(q', g, bag)
  {
    hide Ordered, Older;
    var m := q[id][0];
    FirstIsOldest(q[id]);
    assert Older(q[t], q[id]);
    SnocOrdered(q[t], q[id]);
    forall i | 0 <= i < |q'| ensures Placed(g[i], q'[i], bag) && Ordered(q'[i]) {
      assert Placed(g[i], q[i], bag) && Placed(g[id], q[id], bag);
    }
    forall i, j | 0 <= i < |q'| && 0 <= j < |q'| && g[i].level > g[j].level ensures Older(q'[j], q'[i]) {
      assert Older(q[j], q[i]);
      if j == t {
        forall a | a in q'[i] && a.key == m.key ensures m.seqno < a.seqno { NewerThanFirst(q, g, bag, id, i, a); }
      }
      assert g[id].level > g[j].level ==> Older(q[j], q[id]);
      OlderAfterPush(q[j], q[i], q[id], m, q'[j], q'[i], j == t, i == t);
    }
    forall x | x in bag ensures Pending(q', x) {
      assert Pending(q, x);
      var i :| 0 <= i < |q| && x in q[i];
      assert if i == id && x == m then x in q'[t] else x in q'[i];
    }
  }

  lemma SnocOrdered<V>(s: seq<Message<V>>, above: seq<Message<V>>)
    requires Ordered(s) && above != [] && Older(s, above)
    ensures Ordered(s + [above[0]])
  {
    forall x | 0 <= x < |s| && s[x].key == above[0].key ensures s[x].seqno < above[0].seqno {
      assert s[x] in s && above[0] in above;
    }
  }

  /** One queue below another, before and after m moved from `source` one level down. */
  lemma OlderAfterPush<V>(low: seq<Message<V>>, high: seq<Message<V>>, source: seq<Message<V>>, m: Message<V>,
                          low': seq<Message<V>>, high': seq<Message<V>>, lowGains: bool, highGains: bool)
    requires Older(low, high) && m in source
    requires forall x :: x in low' ==> x in low || (lowGains && x == m)
    requires forall x :: x in high' ==> x in high || (highGains && x == m)
    requires highGains ==> Older(low, source) && !lowGains
    requires lowGains ==> forall a :: a in high' && a.key == m.key ==> m.seqno < a.seqno
    ensures Older(low', high')
  {
    forall a, c | a in high' && c in low' && a.key == c.key ensures c.seqno < a.seqno {
    }
  }

  /** The oldest message of node id leaves the queues. */
  lemma PopKeepsMessages<V>(q: Queues<V>, g: Map, bag: set<Message<V>>, id: nat, q': Queues<V>)
    requires MsgInv(q, g, bag) && id < |q| && q[id] != [] && g[id].level == 1
    requires Disjoint(g)
    requires q' == q[id := q[id][1..]]
    ensures MsgInv(q', g, bag - {q[id][0]})
    ensures q[id][0] in bag
    ensures forall x :: x in bag && x.key == q[id][0].key && x != q[id][0] ==> q[id][0].seqno < x.seqno
  {
    hide Ordered, Older;
    var m := q[id][0];
    FirstIsOldest(q[id]);
    assert Placed(g[id], q[id], bag);
    forall x | x in bag && x.key == m.key && x != m ensures m.seqno < x.seqno {
      assert Pending(q, x);
      var i :| 0 <= i < |q| && x in q[i];
      NewerThanFirst(q, g, bag, id, i, x);
    }
    forall i, x | 0 <= i < |q'| && x in q'[i] ensures x != m {
      if x.key == m.key { NewerThanFirst(q, g, bag, id, i, x); }
    }
    forall i | 0 <= i < |q'| ensures Placed(g[i], q'[i], bag - {m}) && Ordered(q'[i]) {
      assert Placed(g[i], q[i], bag);
    }
    forall i, j | 0 <= i < |q'| && 0 <= j < |q'| && g[i].level > g[j].level ensures Older(q'[j], q'[i]) {
      assert Older(q[j], q[i]);
      OlderParts(q[j], q[i], q'[j], q'[i]);
    }
    forall x | x in bag - {m} ensures Pending(q', x) {
      assert Pending(q, x);
      var i :| 0 <= i < |q| && x in q[i];
      assert x in q'[i];
    }
  }

  /** A new message enters at the root. */
  lemma EnqueueKeepsMessages<V>(q: Queues<V>, g: Map, bag: set<Message<V>>, root: nat, m: Message<V>)
    requires MsgInv(q, g, bag) && root < |q| && g[root].level > 0 && In(g[root], m.key)
    requires forall i :: 0 <= i < |g| ==> g[i].level <= g[root].level
    requires forall x :: x in bag ==> x.seqno < m.seqno
    ensures MsgInv(q[root := q[root] + [m]], g, bag + {m})
  {
    hide Older;
    var q' := q[root := q[root] + [m]];
    forall i | 0 <= i < |q'| ensures Placed(g[i], q'[i], bag + {m}) && Ordered(q'[i]) {
      assert Placed(g[i], q[i], bag) && Ordered(q[i]);
      if i == root {
        forall x | 0 <= x < |q[root]| ensures q[root][x].seqno < m.seqno { assert q[root][x] in q[root]; }
      }
    }
    forall i, j | 0 <= i < |q'| && 0 <= j < |q'| && g[i].level > g[j].level ensures Older(q'[j], q'[i]) {
      assert Older(q[j], q[i]);
      if i == root { OlderSnoc(q[j], q[i], g[j], bag, m); }
    }
    forall x | x in bag + {m} ensures Pending(q', x) {
      if x == m {
        assert m in q'[root];
      } else {
        assert Pending(q, x);
        var i :| 0 <= i < |q| && x in q[i];
        assert x in q'[i];
      }
    }
  }

  lemma OlderSnoc<V>(low: seq<Message<V>>, high: seq<Message<V>>, r: Region, bag: set<Message<V>>, m: Message<V>)
    requires Older(low, high) && Placed(r, low, bag) && forall x :: x in bag ==> x.seqno < m.seqno
    ensures Older(low, high + [m])
  {
  }
}
