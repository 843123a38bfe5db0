/** The entry counter of the Bε-tree: once nothing is buffered it is the size of the map. */
module BeTreeCount {
  import opened Options
  import opened BeTreeModel
  import opened BeTreeMessages
  import opened BeTreeContent
  import opened BeTreeSplit
  import opened BeTreeState
  import opened BeTreeQuery
  import opened BT = BeTree

  ghost function KeysOf<V>(es: seq<Entry<V>>): set<Key>
  {
    set e | e in es :: e.key
  }

  lemma {:induction false} SortedKeys<V>(es: seq<Entry<V>>)
    requires Sorted(es)
    ensures |KeysOf(es)| == |es|
  {
    if es != [] {
      var rest, last := es[..|es| - 1], es[|es| - 1];
      SortedKeys(rest);
      assert es == rest + [last];
      assert KeysOf(es) == KeysOf(rest) + {last.key};
      assert last.key !in KeysOf(rest);
    }
  }

  /** The keys found in the leaves of an arena. */
  ghost function LeafKeys<V>(n: Arena<V>): set<Key>
  {
    if n == [] then {} else LeafKeys(n[..|n| - 1]) + KeysOf(Entries(n[|n| - 1]))
  }

  lemma {:induction false} KeyInLeaf<V>(n: Arena<V>, k: Key)
    ensures k in LeafKeys(n) <==> exists i :: 0 <= i < |n| && k in KeysOf(Entries(n[i]))
  {
    if n != [] {
      var m := n[..|n| - 1];
      KeyInLeaf(m, k);
      if k in LeafKeys(m) {
        var i :| 0 <= i < |m| && k in KeysOf(Entries(m[i]));
        assert n[i] == m[i];
      }
      if i :| 0 <= i < |n| && k in KeysOf(Entries(n[i])) {
        assert i < |m| ==> m[i] == n[i];
      }
    }
  }

  /** No key is in two leaves, so counting entries counts keys. */
  lemma {:induction false} StoredKeys<V>(n: Arena<V>, g: Map, root: nat, k: nat)
    requires StructOk(n, g, root) && k <= |n| == |g| && forall i :: 0 <= i < |n| && n[i].Leaf? ==> LeafOk(g[i], n[i].entries)
    ensures |LeafKeys(n[..k])| == Stored(n[..k])
    decreases k
  {
    hide StructOk, LeafOk, KeysOf, Sorted;
    if k > 0 {
      StoredKeys(n, g, root, k - 1);
      var m, x := n[..k - 1], n[k - 1];
      assert n[..k][..k - 1] == m && n[..k][k - 1] == x;
      EntriesSorted(n, g, k - 1);
      SortedKeys(Entries(x));
      forall key | key in KeysOf(Entries(x)) ensures key !in LeafKeys(m) {
        KeyInLeaf(m, key);
        forall i | 0 <= i < k - 1 ensures key !in KeysOf(Entries(m[i])) { OneHome(n, g, root, i, k - 1, key); }
      }
      DisjointSizes(LeafKeys(m), KeysOf(Entries(x)));
    }
  }

  lemma EntriesSorted<V>(n: Arena<V>, g: Map, i: nat)
    requires i < |n| == |g| && forall i :: 0 <= i < |n| && n[i].Leaf? ==> LeafOk(g[i], n[i].entries)
    ensures Sorted(Entries(n[i]))
  {
    if n[i].Leaf? { assert LeafOk(g[i], n[i].entries); }
  }

  lemma DisjointSizes(a: set<Key>, b: set<Key>)
    requires a !! b
    ensures |a + b| == |a| + |b|
  {
    assert a + b - a == b;
  }

  lemma OneHome<V>(n: Arena<V>, g: Map, root: nat, i: nat, j: nat, key: Key)
    requires StructOk(n, g, root) && i < |n| && j < |n| && i != j && forall i :: 0 <= i < |n| && n[i].Leaf? ==> LeafOk(g[i], n[i].entries)
    requires key in KeysOf(Entries(n[j]))
    ensures key !in KeysOf(Entries(n[i]))
  {
    if key in KeysOf(Entries(n[i])) {
      assert LeafOk(g[i], n[i].entries) && LeafOk(g[j], n[j].entries);
      assert NodeOk(n, g, root, i) && NodeOk(n, g, root, j);
      OneNodePerKey(g, i, j, key);
      assert false;
    }
  }

  /** With nothing pending, the leaves hold exactly the keys of the map. */
  lemma LeavesHoldTheMap<V>(s: View<V>)
    requires Inv(s) && s.bag == {}
    ensures LeafKeys(s.n) == s.model.Keys
  {
    hide MsgInv, StructOk;
    forall k ensures k in LeafKeys(s.n) <==> k in s.model {
      KeyInLeaf(s.n, k);
      if k in s.model {
        var leaf := LeafOf(s, k);
        assert Settled(s.n[leaf].entries, s.bag, s.model, k);
        assert Entry(k, s.model[k]) in Entries(s.n[leaf]);
      }
      if i :| 0 <= i < |s.n| && k in KeysOf(Entries(s.n[i])) { EntryIsLive(s, i, k); }
    }
  }

  lemma EntryIsLive<V>(s: View<V>, i: nat, k: Key)
    requires Inv(s) && s.bag == {} && i < |s.n| == |s.g| && k in KeysOf(Entries(s.n[i]))
    ensures k in s.model
  {
    hide MsgInv, StructOk;
    var e :| e in Entries(s.n[i]) && e.key == k;
    assert LeafOk(s.g[i], s.n[i].entries);
    assert Settled(s.n[i].entries, s.bag, s.model, k);
    HoldsOnce(s.n[i].entries, k, Some(e.value), Get(s.model, k));
  }

  /** After a complete flush the counter of live entries is the number of keys. */
  lemma LiveEntriesExact<V>(t: BeTree<V>)
    requires t.Valid() && t.pending == 0
    ensures t.liveEntries == |t.model|
  {
    hide Inv, HandsOk, Limits;
    var s := t.Now();
    assert s.bag == {} by { NothingPending(t); }
    assert StructOk(s.n, s.g, s.root) && ContentInv(s.n, s.g, s.bag, s.model) by { ContentOf(s); InvParts(s); }
    StoredKeys(s.n, s.g, s.root, |s.n|);
    assert s.n[..|s.n|] == s.n;
    LeavesHoldTheMap(s);
  }

  lemma InvParts<V>(s: View<V>)
    requires Inv(s)
    ensures StructOk(s.n, s.g, s.root)
  {
  }

  lemma NothingPending<V>(t: BeTree<V>)
    requires t.Valid() && t.pending == 0
    ensures t.bag == {}
  {
    hide Inv, HandsOk, Limits;
    var s := t.Now();
    assert HandsOk(s, {}) by { t.Hands({}); }
    forall m | m in s.bag ensures false {
      PendingIsBuffered(s, m);
      var i :| 0 <= i < |s.n| && m in Buffer(s.n[i]);
      BufferedAtLeast(s.n, i);
      assert false;
    }
  }
}
