/** What a tree means. For each key the newest pending message decides; when no
    message is pending, the entry in the leaf responsible for the key does. */
module BeTreeContent {
  import opened Options
  import opened BeTreeModel
  import opened BeTreeMessages

  function Get<V>(model: map<Key, V>, k: Key): Option<V>
  {
    if k in model then Some(model[k]) else None
  }

  /** The effect of an operation on its key. */
  function Outcome<V>(op: Op<V>): Option<V>
  {
    match op
    case Upsert(v) => Some(v)
    case Delete => None
  }

  function Put<V>(model: map<Key, V>, k: Key, op: Op<V>): map<Key, V>
  {
    match op
    case Upsert(v) => model[k := v]
    case Delete => model - {k}
  }

  ghost predicate Sorted<V>(es: seq<Entry<V>>)
  {
    forall x, y :: 0 <= x < y < |es| ==> es[x].key < es[y].key
  }

  /** The entries give value v for key k. */
  ghost predicate Holds<V>(es: seq<Entry<V>>, k: Key, v: Option<V>)
  {
    match v
    case Some(x) => Entry(k, x) in es
    case None => forall e :: e in es ==> e.key != k
  }

  ghost predicate HasKey<V>(es: seq<Entry<V>>, k: Key)
  {
    exists x :: 0 <= x < |es| && es[x].key == k
  }

  ghost predicate Quiet<V>(bag: set<Message<V>>, k: Key)
  {
    forall m :: m in bag ==> m.key != k
  }

  ghost predicate Newest<V>(bag: set<Message<V>>, m: Message<V>)
  {
    m in bag && forall x :: x in bag && x.key == m.key ==> x.seqno <= m.seqno
  }

  ghost predicate LeafOk<V>(r: Region, es: seq<Entry<V>>)
  {
    Sorted(es) && forall e :: e in es ==> In(r, e.key)
  }

  /** Nothing pending for k: the entries es are what counts. */
  ghost predicate Settled<V>(es: seq<Entry<V>>, bag: set<Message<V>>, model: map<Key, V>, k: Key)
  {
    Quiet(bag, k) ==> Holds(es, k, Get(model, k))
  }

  ghost predicate ContentInv<V>(n: Arena<V>, g: Map, bag: set<Message<V>>, model: map<Key, V>)
  {
    && |n| == |g|
    && (forall i :: 0 <= i < |n| && n[i].Leaf? ==> LeafOk(g[i], n[i].entries))
    && (forall m :: m in bag && Newest(bag, m) ==> Get(model, m.key) == Outcome(m.op))
    && (forall i, k :: 0 <= i < |n| && n[i].Leaf? && In(g[i], k) ==> Settled(n[i].entries, bag, model, k))
  }

  // ---------------------------------------------------------------------
  // Steps
  // ---------------------------------------------------------------------

  /** es' is es after the operation on k. */
  ghost predicate Applied<V>(es: seq<Entry<V>>, k: Key, op: Op<V>, es': seq<Entry<V>>)
  {
    && Sorted(es')
    && (forall e :: e in es' ==> (e.key != k && e in es) || (op.Upsert? && e == Entry(k, op.value)))
    && (forall e :: e in es && e.key != k ==> e in es')
    && (op.Upsert? ==> Entry(k, op.value) in es')
  }

  lemma AppliedHolds<V>(es: seq<Entry<V>>, k: Key, op: Op<V>, es': seq<Entry<V>>, x: Key, v: Option<V>)
    requires Applied(es, k, op, es')
    ensures x != k && Holds(es, x, v) ==> Holds(es', x, v)
    ensures Holds(es', k, Outcome(op))
  {
  }

  /** The oldest message for its key reaches the leaf. */
  lemma ApplyKeepsContent<V>(n: Arena<V>, g: Map, bag: set<Message<V>>, model: map<Key, V>, i: nat, m: Message<V>, es': seq<Entry<V>>)
    requires ContentInv(n, g, bag, model) && Disjoint(g)
    requires i < |n| && n[i].Leaf? && In(g[i], m.key) && Applied(n[i].entries, m.key, m.op, es')
    requires forall j :: 0 <= j < |n| && n[j].Leaf? ==> g[j].level == g[i].level
    requires m in bag && forall x :: x in bag && x.key == m.key && x != m ==> m.seqno < x.seqno
    ensures ContentInv(n[i := Leaf(n[i].parent, es')], g, bag - {m}, model)
  {
    hide Sorted, Applied, Holds;
    var n' := n[i := Leaf(n[i].parent, es')];
    var bag' := bag - {m};
    forall j | 0 <= j < |n'| && n'[j].Leaf? ensures LeafOk(g[j], n'[j].entries) {
      assert LeafOk(g[j], n[j].entries);
      if j == i { AppliedStaysIn(g[i], n[i].entries, m.key, m.op, es'); }
    }
    forall x | x in bag' && Newest(bag', x) ensures Get(model, x.key) == Outcome(x.op) {
      assert Newest(bag, x);
    }
    forall j, k | 0 <= j < |n'| && n'[j].Leaf? && In(g[j], k) ensures Settled(n'[j].entries, bag', model, k) {
      assert Settled(n[j].entries, bag, model, k);
      if k == m.key {
        OneNodePerKey(g, i, j, k);
        AppliedHolds(n[i].entries, k, m.op, es', k, Get(model, k));
        if Quiet(bag', k) { assert Newest(bag, m); }
      } else {
        assert Quiet(bag', k) ==> Quiet(bag, k);
        if j == i { AppliedHolds(n[i].entries, m.key, m.op, es', k, Get(model, k)); }
      }
    }
  }

  lemma AppliedStaysIn<V>(r: Region, es: seq<Entry<V>>, k: Key, op: Op<V>, es': seq<Entry<V>>)
    requires LeafOk(r, es) && In(r, k) && Applied(es, k, op, es')
    ensures LeafOk(r, es')
  {
  }

  /** An operation applied at once, with nothing pending. */
  lemma ApplyNowKeepsContent<V>(n: Arena<V>, g: Map, model: map<Key, V>, i: nat, k: Key, op: Op<V>, es': seq<Entry<V>>)
    requires ContentInv(n, g, {}, model) && i < |n| && n[i].Leaf? && In(g[i], k) && Applied(n[i].entries, k, op, es')
    requires Disjoint(g) && forall j :: 0 <= j < |n| && n[j].Leaf? ==> g[j].level == g[i].level
    ensures ContentInv(n[i := Leaf(n[i].parent, es')], g, {}, Put(model, k, op))
  {
    hide Sorted, Applied, Holds;
    var n' := n[i := Leaf(n[i].parent, es')];
    var none: set<Message<V>> := {};
    forall j | 0 <= j < |n'| && n'[j].Leaf? ensures LeafOk(g[j], n'[j].entries) {
      assert LeafOk(g[j], n[j].entries);
      if j == i { AppliedStaysIn(g[i], n[i].entries, k, op, es'); }
    }
    forall j, x | 0 <= j < |n'| && n'[j].Leaf? && In(g[j], x) ensures Settled(n'[j].entries, none, Put(model, k, op), x) {
      assert Settled(n[j].entries, none, model, x);
      if x == k { OneNodePerKey(g, i, j, k); }
      if j == i { AppliedHolds(n[i].entries, k, op, es', x, Get(model, x)); }
    }
  }

  /** A new message, newer than all, decides its key from now on. */
  lemma EnqueueKeepsContent<V>(n: Arena<V>, g: Map, bag: set<Message<V>>, model: map<Key, V>, m: Message<V>)
    requires ContentInv(n, g, bag, model) && forall x :: x in bag ==> x.seqno < m.seqno
    ensures ContentInv(n, g, bag + {m}, Put(model, m.key, m.op))
  {
    hide Holds, Sorted, LeafOk;
    var bag', model' := bag + {m}, Put(model, m.key, m.op);
    forall x | x in bag' && Newest(bag', x) ensures Get(model', x.key) == Outcome(x.op) {
      assert m in bag';
      if x.key != m.key { assert Newest(bag, x); }
    }
    forall i, k | 0 <= i < |n| && n[i].Leaf? && In(g[i], k) ensures Settled(n[i].entries, bag', model', k) {
      assert Settled(n[i].entries, bag, model, k);
      assert m in bag';
    }
  }

  /** Node id has been cut at b; a leaf's entries went to either side. */
  ghost predicate EntriesCut<V>(n: Arena<V>, id: nat, b: Key, n': Arena<V>)
    requires id < |n| < |n'|
  {
    && Entries(n[id]) == Entries(n'[id]) + Entries(n'[|n|])
    && (forall e :: e in Entries(n'[id]) ==> e.key < b)
    && (forall e :: e in Entries(n'[|n|]) ==> b <= e.key)
    && (n'[id].Leaf? <==> n[id].Leaf?) && (n'[|n|].Leaf? <==> n[id].Leaf?)
    && (forall i :: 0 <= i < |n| && i != id ==> (n'[i].Leaf? <==> n[i].Leaf?) && Entries(n'[i]) == Entries(n[i]))
    && (forall i :: |n| < i < |n'| ==> n'[i].Internal?)
  }

  lemma CutKeepsContent<V>(n: Arena<V>, g: Map, bag: set<Message<V>>, model: map<Key, V>, id: nat, b: Key, n': Arena<V>, g': Map)
    requires ContentInv(n, g, bag, model) && id < |n| < |n'| == |g'| && EntriesCut(n, id, b, n')
    requires g'[..|g|] == g[id := g[id].(hi := Some(b))] && g'[|g|] == Region(g[id].level, Some(b), g[id].hi)
    requires Cuts(g[id], b)
    ensures ContentInv(n', g', bag, model)
  {
    hide Quiet, Newest;
    forall i | 0 <= i < |n'| && n'[i].Leaf? ensures LeafOk(g'[i], n'[i].entries) {
      var o := if i == |n| then id else i;
      assert g'[..|g|][o] == g'[o];
      assert LeafOk(g[o], n[o].entries);
      if o == id { CutLeafOk(g[id], Entries(n[id]), Entries(n'[id]), Entries(n'[|n|]), b); }
    }
    forall i, k | 0 <= i < |n'| && n'[i].Leaf? && In(g'[i], k) ensures Settled(n'[i].entries, bag, model, k) {
      var o := if i == |n| then id else i;
      assert g'[..|g|][o] == g'[o];
      assert Settled(n[o].entries, bag, model, k);
    }
  }

  lemma CutLeafOk<V>(r: Region, es: seq<Entry<V>>, left: seq<Entry<V>>, right: seq<Entry<V>>, b: Key)
    requires LeafOk(r, es) && es == left + right
    requires forall e :: e in left ==> e.key < b
    requires forall e :: e in right ==> b <= e.key
    ensures LeafOk(r.(hi := Some(b)), left) && LeafOk(Region(r.level, Some(b), r.hi), right)
  {
    forall x, y | 0 <= x < y < |left| ensures left[x].key < left[y].key { assert left[x] == es[x] && left[y] == es[y]; }
    forall x, y | 0 <= x < y < |right| ensures right[x].key < right[y].key {
      assert right[x] == es[|left| + x] && right[y] == es[|left| + y];
    }
    forall e | e in left || e in right ensures In(r, e.key) { assert e in es; }
  }
}
