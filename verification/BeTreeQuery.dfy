/** The pieces of point lookup and range scan: ordering messages by sequence
    number, replaying them, and merging them with leaf entries. */
module BeTreeQuery {
  import opened Options
  import opened BeTreeModel
  import opened BeTreeMessages
  import opened BeTreeContent
  import opened BeTreeSplit
  import opened BeTreeState

  ghost predicate BySeq<V>(s: seq<Message<V>>)
  {
    forall x, y :: 0 <= x < y < |s| ==> s[x].seqno <= s[y].seqno
  }

  method InsertBySeq<V>(s: seq<Message<V>>, m: Message<V>) returns (r: seq<Message<V>>)
    requires BySeq(s)
    ensures BySeq(r) && multiset(r) == multiset(s) + multiset{m}
  {
    hide BySeq;
    var i := |s|;
    while i > 0 && s[i - 1].seqno > m.seqno
      invariant 0 <= i <= |s|
      invariant forall x :: i <= x < |s| ==> s[x].seqno > m.seqno
    {
      i := i - 1;
    }
    r := s[..i] + [m] + s[i..];
    InsertedInOrder(s, i, m);
    InsertedOnce(s, i, m);
  }

  lemma InsertedInOrder<V>(s: seq<Message<V>>, i: nat, m: Message<V>)
    requires BySeq(s) && i <= |s| && (i > 0 ==> s[i - 1].seqno <= m.seqno) && forall x :: i <= x < |s| ==> s[x].seqno > m.seqno
    ensures BySeq(s[..i] + [m] + s[i..])
  {
    var r := s[..i] + [m] + s[i..];
    forall x, y | 0 <= x < y < |r| ensures r[x].seqno <= r[y].seqno {
      if x != i { assert r[x] == s[if x < i then x else x - 1]; }
      if y != i { assert r[y] == s[if y < i then y else y - 1]; }
    }
  }

  lemma InsertedOnce<V>(s: seq<Message<V>>, i: nat, m: Message<V>)
    requires i <= |s|
    ensures multiset(s[..i] + [m] + s[i..]) == multiset(s) + multiset{m}
  {
    assert s == s[..i] + s[i..];
  }

  method SortBySeq<V>(s: seq<Message<V>>) returns (r: seq<Message<V>>)
    ensures BySeq(r) && multiset(r) == multiset(s)
    ensures forall m :: m in r <==> m in s
  {
    r := [];
    for i := 0 to |s|
      invariant BySeq(r) && multiset(r) == multiset(s[..i])
    {
      assert s[..i + 1] == s[..i] + [s[i]];
      r := InsertBySeq(r, s[i]);
    }
    assert s[..|s|] == s;
    forall m ensures m in r <==> m in s {
      assert m in r <==> m in multiset(r);
      assert m in s <==> m in multiset(s);
    }
  }

  /** The messages of a buffer for one key. */
  method ForKey<V>(buffer: seq<Message<V>>, key: Key) returns (r: seq<Message<V>>)
    ensures forall m :: m in r <==> m in buffer && m.key == key
  {
    r := [];
    for i := 0 to |buffer|
      invariant forall m :: m in r <==> m in buffer[..i] && m.key == key
    {
      assert buffer[..i + 1] == buffer[..i] + [buffer[i]];
      if buffer[i].key == key { r := r + [buffer[i]]; }
    }
    assert buffer[..|buffer|] == buffer;
  }

  predicate InRange(k: Key, lo: Option<Key>, hi: Option<Key>)
  {
    (lo.Some? ==> lo.value <= k) && (hi.Some? ==> k <= hi.value)
  }

  /** The messages of a buffer in a range. */
  method ForRange<V>(buffer: seq<Message<V>>, lo: Option<Key>, hi: Option<Key>) returns (r: seq<Message<V>>)
    ensures forall m :: m in r <==> m in buffer && InRange(m.key, lo, hi)
  {
    r := [];
    for i := 0 to |buffer|
      invariant forall m :: m in r <==> m in buffer[..i] && InRange(m.key, lo, hi)
    {
      assert buffer[..i + 1] == buffer[..i] + [buffer[i]];
      if InRange(buffer[i].key, lo, hi) { r := r + [buffer[i]]; }
    }
    assert buffer[..|buffer|] == buffer;
  }

  // ---------------------------------------------------------------------
  // Merging
  // ---------------------------------------------------------------------

  /** Keys seen so far with their value; None marks a deleted key. */
  type Merge<V> = map<Key, Option<V>>

  function Seen<V>(r: Merge<V>, k: Key): Option<V>
  {
    if k in r then r[k] else None
  }

  method AddEntries<V>(r: Merge<V>, es: seq<Entry<V>>, lo: Option<Key>, hi: Option<Key>) returns (r': Merge<V>)
    requires Sorted(es)
    ensures forall x :: 0 <= x < |es| && InRange(es[x].key, lo, hi) ==> Seen(r', es[x].key) == Some(es[x].value)
    ensures forall k :: !InRange(k, lo, hi) || !HasKey(es, k) ==> (k in r' <==> k in r) && Seen(r', k) == Seen(r, k)
    ensures forall k :: k in r' ==> k in r || HasKey(es, k)
  {
    r' := r;
    for i := 0 to |es|
      invariant forall x :: 0 <= x < i && InRange(es[x].key, lo, hi) ==> Seen(r', es[x].key) == Some(es[x].value)
      invariant forall k :: !InRange(k, lo, hi) || !HasKey(es, k) ==> (k in r' <==> k in r) && Seen(r', k) == Seen(r, k)
      invariant forall k :: k in r' ==> k in r || HasKey(es, k)
    {
      if InRange(es[i].key, lo, hi) {
        assert HasKey(es, es[i].key);
        r' := r'[es[i].key := Some(es[i].value)];
      }
    }
  }

  /** msgs[x] is the last message for its key. */
  ghost predicate Last<V>(msgs: seq<Message<V>>, x: nat)
    requires x < |msgs|
  {
    forall y :: x < y < |msgs| ==> msgs[y].key != msgs[x].key
  }

  ghost predicate Mentions<V>(msgs: seq<Message<V>>, k: Key)
  {
    exists x :: 0 <= x < |msgs| && msgs[x].key == k
  }

  method Replay<V>(r: Merge<V>, msgs: seq<Message<V>>, lo: Option<Key>, hi: Option<Key>) returns (r': Merge<V>)
    ensures forall x :: 0 <= x < |msgs| && Last(msgs, x) && InRange(msgs[x].key, lo, hi) ==> Seen(r', msgs[x].key) == Outcome(msgs[x].op)
    ensures forall k :: !InRange(k, lo, hi) || !Mentions(msgs, k) ==> Seen(r', k) == Seen(r, k)
  {
    hide Last, Mentions;
    r' := r;
    for i := 0 to |msgs|
      invariant forall x :: 0 <= x < i && Last(msgs[..i], x) && InRange(msgs[x].key, lo, hi) ==> Seen(r', msgs[x].key) == Outcome(msgs[x].op)
      invariant forall k :: !InRange(k, lo, hi) || !Mentions(msgs, k) ==> Seen(r', k) == Seen(r, k)
    {
      forall x | 0 <= x < i && Last(msgs[..i + 1], x) ensures Last(msgs[..i], x) && msgs[x].key != msgs[i].key { LastSoFar(msgs, i, x); }
      if InRange(msgs[i].key, lo, hi) {
        assert Mentions(msgs, msgs[i].key) by { Mentioned(msgs, i); }
        r' := r'[msgs[i].key := Outcome(msgs[i].op)];
      }
    }
    assert msgs[..|msgs|] == msgs;
  }

  lemma LastSoFar<V>(msgs: seq<Message<V>>, i: nat, x: nat)
    requires x < i < |msgs| && Last(msgs[..i + 1], x)
    ensures Last(msgs[..i], x) && msgs[x].key != msgs[i].key
  {
    var more := msgs[..i + 1];
    assert more[i] == msgs[i] && more[x] == msgs[x] == msgs[..i][x];
    forall y | x < y < i ensures msgs[..i][y].key != msgs[..i][x].key { assert more[y] == msgs[..i][y]; }
  }

  lemma Mentioned<V>(msgs: seq<Message<V>>, i: nat)
    requires i < |msgs|
    ensures Mentions(msgs, msgs[i].key)
  {
  }

  lemma SomeKey(keys: set<Key>)
    ensures keys == {} || exists k :: k in keys
  {
    if forall k: Key :: k !in keys { assert keys == {}; }
  }

  lemma {:induction false} LeastKey(keys: set<Key>)
    requires keys != {}
    ensures exists k :: k in keys && forall j :: j in keys ==> k <= j
    decreases |keys|
  {
    SomeKey(keys);
    var k :| k in keys;
    var rest := keys - {k};
    var least := k;
    if rest != {} {
      LeastKey(rest);
      var l :| l in rest && forall j :: j in rest ==> l <= j;
      least := if k <= l then k else l;
    }
    forall j | j in keys ensures least <= j {
      if j != k { assert j in rest; }
    }
  }

  /** The live keys of a merge in ascending order. */
  method InOrder<V>(r: Merge<V>) returns (out: seq<Entry<V>>)
    ensures Sorted(out)
    ensures forall e :: e in out <==> Seen(r, e.key) == Some(e.value)
  {
    out := [];
    var keys := r.Keys;
    while keys != {}
      invariant keys <= r.Keys && Sorted(out)
      invariant forall x, k :: 0 <= x < |out| && k in keys ==> out[x].key < k
      invariant forall e :: e in out <==> e.key !in keys && Seen(r, e.key) == Some(e.value)
      decreases |keys|
    {
      LeastKey(keys);
      var k :| k in keys && forall j :: j in keys ==> k <= j;
      if r[k].Some? { out := out + [Entry(k, r[k].value)]; }
      keys := keys - {k};
    }
  }

  // ---------------------------------------------------------------------
  // What the merged messages mean
  // ---------------------------------------------------------------------

  /** The last of the messages for a key, taken in order of sequence number, gives the
      represented value, provided these are all the messages for the key. */
  lemma LastDecides<V>(s: View<V>, msgs: seq<Message<V>>, x: nat)
    requires ContentInv(s.n, s.g, s.bag, s.model) && BySeq(msgs) && x < |msgs| && Last(msgs, x)
    requires forall m :: m in msgs && m.key == msgs[x].key <==> m in s.bag && m.key == msgs[x].key
    ensures Get(s.model, msgs[x].key) == Outcome(msgs[x].op)
  {
    var m := msgs[x];
    assert m in msgs;
    forall o | o in s.bag && o.key == m.key ensures o.seqno <= m.seqno {
      assert o in msgs;
      var y :| 0 <= y < |msgs| && msgs[y] == o;
    }
    assert Newest(s.bag, m);
  }

  lemma {:induction false} LastExists<V>(msgs: seq<Message<V>>, k: Key) returns (x: nat)
    requires Mentions(msgs, k)
    ensures x < |msgs| && msgs[x].key == k && Last(msgs, x)
  {
    x := |msgs| - 1;
    while msgs[x].key != k
      invariant x < |msgs| && forall y :: x < y < |msgs| ==> msgs[y].key != k
      decreases x
    {
      var y :| 0 <= y < |msgs| && msgs[y].key == k;
      x := x - 1;
    }
  }

  /** With nobody draining, a message is pending exactly when some buffer holds it. */
  lemma PendingIsBuffered<V>(s: View<V>, m: Message<V>)
    requires Inv(s) && HandsOk(s, {})
    ensures m in s.bag <==> exists i :: 0 <= i < |s.n| && m in Buffer(s.n[i])
    ensures forall i :: 0 <= i < |s.n| && m in Buffer(s.n[i]) ==> In(s.g[i], m.key) && s.g[i].level > 0
  {
    hide StructOk, ContentInv, Ordered, Older;
    var q := QueuesOf(s.n, s.hand);
    forall i | 0 <= i < |s.n| ensures q[i] == Buffer(s.n[i]) && Placed(s.g[i], q[i], s.bag) {
    }
    if m in s.bag {
      assert Pending(q, m);
      var i :| 0 <= i < |q| && m in q[i];
      assert m in Buffer(s.n[i]);
    }
  }
}
