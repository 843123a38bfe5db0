/** Log matching.  Each entry is identified by its term and index; the history
    keeps the log prefix that ended in it when its leader created it, and every
    log and every AppendEntries in flight is built from those prefixes. */
module RaftLog {
  import opened Options
  import opened RaftModel
  import opened RaftElection

  type Prefixes = map<EntryId, seq<Entry>>

  /** Every position of the log holds the entry its identity was created with,
      after the same predecessors. */
  ghost predicate GoodLog(pre: Prefixes, log: seq<Entry>)
  {
    forall i :: 0 <= i < |log| ==> GoodAt(pre, log, i)
  }

  ghost predicate GoodAt(pre: Prefixes, log: seq<Entry>, i: nat)
    requires i < |log|
  {
    var id := EntryId(log[i].term, i + 1);
    log[i].index == i + 1 && id in pre && pre[id] == log[..i + 1]
  }

  ghost predicate Contiguous(log: seq<Entry>, offset: nat)
  {
    forall i :: 0 <= i < |log| ==> log[i].index == offset + i + 1
  }

  /** The log an AppendEntries was cut from, up to its last entry. */
  ghost function SentLog(pre: Prefixes, m: Message): seq<Entry>
    requires m.AppendEntries? && (m.prevIndex == 0 || EntryId(m.prevTerm, m.prevIndex) in pre)
  {
    (if m.prevIndex == 0 then [] else pre[EntryId(m.prevTerm, m.prevIndex)]) + m.entries
  }

  ghost predicate GoodMessage(pre: Prefixes, m: Message)
  {
    m.AppendEntries? ==>
      && (m.prevIndex == 0 || EntryId(m.prevTerm, m.prevIndex) in pre)
      && |SentLog(pre, m)| == m.prevIndex + |m.entries|
      && GoodLog(pre, SentLog(pre, m))
  }

  ghost predicate PrefixOk(n: Net, h: History, id: EntryId)
    requires id in h.prefix
  {
    && 1 <= id.index == |h.prefix[id]|
    && h.prefix[id][id.index - 1].term == id.term
    && GoodLog(h.prefix, h.prefix[id])
    && id.term in h.leaders
    && forall i :: 0 <= i < |n.servers| && n.servers[i].role == Leader && n.servers[i].term == id.term ==>
         id.index <= |n.servers[i].log|
  }

  /** A leader never skips past the end of its own log. */
  ghost predicate NextOk(s: Server)
  {
    forall p :: p in s.nextIndex && p < s.size && p != s.id ==> s.nextIndex[p] <= |s.log| + 1
  }

  ghost predicate LogInv(n: Net, h: History)
  {
    && (forall i :: 0 <= i < |n.servers| ==> GoodLog(h.prefix, n.servers[i].log))
    && (forall i :: 0 <= i < |n.servers| && n.servers[i].role == Leader ==> NextOk(n.servers[i]))
    && (forall k :: 0 <= k < |n.inbox| ==> GoodMessage(h.prefix, n.inbox[k].msg))
    && (forall id :: id in h.prefix ==> PrefixOk(n, h, id))
  }

  // ---------------------------------------------------------------------
  // What the log queries return on a contiguous log
  // ---------------------------------------------------------------------

  lemma GoodIsContiguous(pre: Prefixes, log: seq<Entry>)
    requires GoodLog(pre, log)
    ensures Contiguous(log, 0) && LastIndex(log) == |log|
  {
    forall i | 0 <= i < |log| ensures log[i].index == i + 1 { assert GoodAt(pre, log, i); }
  }

  lemma PrefixIsGood(pre: Prefixes, log: seq<Entry>, p: nat)
    requires GoodLog(pre, log) && p <= |log|
    ensures GoodLog(pre, log[..p])
  {
    forall i | 0 <= i < p ensures GoodAt(pre, log[..p], i) {
      assert GoodAt(pre, log, i);
      assert log[..p][..i + 1] == log[..i + 1];
    }
  }

  lemma PositionIn(log: seq<Entry>, index: nat)
    requires Contiguous(log, 0)
    ensures Position(log, index, 0) == if 1 <= index <= |log| then Some(index - 1) else None
  {
    if 1 <= index <= |log| { assert log[index - 1].index == index; }
  }

  lemma {:induction false} EntriesFromIs(log: seq<Entry>, next: nat, offset: nat)
    requires Contiguous(log, offset) && 1 <= next
    ensures EntriesFrom(log, next) ==
      if next <= offset then log else if next - 1 - offset <= |log| then log[next - 1 - offset..] else []
    decreases |log|
  {
    if log != [] {
      EntriesFromIs(log[1..], next, offset + 1);
      assert log == [log[0]] + log[1..];
    }
  }

  /** A leader's message carries its own log. */
  lemma BuildAppendIsGood(pre: Prefixes, s: Server, peer: nat)
    requires GoodLog(pre, s.log)
    requires peer in s.nextIndex ==> s.nextIndex[peer] <= |s.log| + 1
    requires BuildAppend(s, peer).Some?
    ensures GoodMessage(pre, BuildAppend(s, peer).value)
    ensures SentLog(pre, BuildAppend(s, peer).value) == s.log
  {
    var m := BuildAppend(s, peer).value;
    var next := m.prevIndex + 1;
    GoodIsContiguous(pre, s.log);
    EntriesFromIs(s.log, next, 0);
    PositionIn(s.log, next - 1);
    if next > 1 {
      assert GoodAt(pre, s.log, next - 2);
    }
    assert s.log == s.log[..next - 1] + s.log[next - 1..];
  }

  lemma {:induction false} AppendsAreGood(pre: Prefixes, s: Server, from: nat)
    requires GoodLog(pre, s.log) && NextOk(s)
    ensures forall k :: 0 <= k < |Appends(s, from)| ==>
      var d := Appends(s, from)[k];
      && GoodMessage(pre, d.msg) && d.dst < s.size && d.dst != s.id
      && d.msg.AppendEntries? && d.msg.leader == s.id && d.msg.term == s.term
    decreases s.size - from
  {
    if from < s.size {
      AppendsAreGood(pre, s, from + 1);
      if from != s.id && BuildAppend(s, from).Some? { BuildAppendIsGood(pre, s, from); }
    }
  }

  // ---------------------------------------------------------------------
  // Merging a leader's entries into a follower's log
  // ---------------------------------------------------------------------

  lemma MergeOneAgrees(pre: Prefixes, log: seq<Entry>, sent: seq<Entry>, p: nat)
    requires GoodLog(pre, log) && GoodLog(pre, sent)
    requires p < |sent| && p <= |log| && log[..p] == sent[..p]
    ensures GoodLog(pre, MergeOne(log, sent[p]))
    ensures |MergeOne(log, sent[p])| > p && MergeOne(log, sent[p])[..p + 1] == sent[..p + 1]
  {
    GoodIsContiguous(pre, log);
    assert GoodAt(pre, sent, p);
    PositionIn(log, p + 1);
    PrefixIsGood(pre, sent, p + 1);
    assert sent[..p + 1] == sent[..p] + [sent[p]];
    if p < |log| {
      assert GoodAt(pre, log, p);
    } else {
      assert log[..p] == log;
    }
  }

  /** A follower that passed the consistency check ends up holding the sender's
      log through its last entry, and a good log in all. */
  lemma {:induction false} MergeAgrees(pre: Prefixes, log: seq<Entry>, sent: seq<Entry>, p: nat, es: seq<Entry>)
    requires GoodLog(pre, log) && GoodLog(pre, sent)
    requires p <= |log| && |sent| == p + |es| && sent[p..] == es && log[..p] == sent[..p]
    ensures GoodLog(pre, Merge(log, es))
    ensures |Merge(log, es)| >= |sent| && Merge(log, es)[..|sent|] == sent
    decreases |es|
  {
    if es != [] {
      assert es[0] == sent[p];
      MergeOneAgrees(pre, log, sent, p);
      assert sent[p + 1..] == es[1..];
      MergeAgrees(pre, MergeOne(log, es[0]), sent, p + 1, es[1..]);
    } else {
      assert sent[..p] == sent;
    }
  }

  /** The consistency check finds the sender's predecessors, not just one entry. */
  lemma ConsistentMeansEqualPrefix(pre: Prefixes, log: seq<Entry>, m: Message)
    requires GoodLog(pre, log) && m.AppendEntries? && GoodMessage(pre, m)
    requires Consistent(log, m.prevIndex, m.prevTerm)
    ensures m.prevIndex <= |log| && log[..m.prevIndex] == SentLog(pre, m)[..m.prevIndex]
    ensures SentLog(pre, m)[m.prevIndex..] == m.entries
  {
    GoodIsContiguous(pre, log);
    PositionIn(log, m.prevIndex);
    if m.prevIndex > 0 { assert GoodAt(pre, log, m.prevIndex - 1); }
  }

  /** A successful AppendEntries leaves the follower with the leader's log as
      sent, through its last entry. */
  lemma AppendReplicates(pre: Prefixes, log: seq<Entry>, m: Message)
    requires GoodLog(pre, log) && m.AppendEntries? && GoodMessage(pre, m)
    requires Consistent(log, m.prevIndex, m.prevTerm)
    ensures GoodLog(pre, Merge(log, m.entries))
    ensures |Merge(log, m.entries)| >= |SentLog(pre, m)|
    ensures Merge(log, m.entries)[..|SentLog(pre, m)|] == SentLog(pre, m)
  {
    ConsistentMeansEqualPrefix(pre, log, m);
    MergeAgrees(pre, log, SentLog(pre, m), m.prevIndex, m.entries);
  }

  // ---------------------------------------------------------------------
  // Preservation
  // ---------------------------------------------------------------------

  /** A server that holds office after a step either held it before with no
      longer log, or has just won a term nobody had won. */
  ghost predicate OfficeKept(h: History, s: Server, s': Server)
  {
    s'.role == Leader ==>
      && NextOk(s')
      && ((s.role == Leader && s.term == s'.term && |s.log| <= |s'.log|) || s'.term !in h.leaders)
  }

  /** A step that creates no entry. */
  lemma NoEntryPreserves(n: Net, h: History, n': Net, h': History)
    requires LogInv(n, h) && h'.prefix == h.prefix && |n'.servers| == |n.servers|
    requires forall t :: t in h.leaders ==> t in h'.leaders
    requires forall i :: 0 <= i < |n.servers| ==>
      GoodLog(h.prefix, n'.servers[i].log) && OfficeKept(h, n.servers[i], n'.servers[i])
    requires forall k :: 0 <= k < |n'.inbox| ==> GoodMessage(h.prefix, n'.inbox[k].msg)
    ensures LogInv(n', h')
  {
    forall id | id in h'.prefix ensures PrefixOk(n', h', id) {
      assert PrefixOk(n, h, id);
      forall i | 0 <= i < |n'.servers| && n'.servers[i].role == Leader && n'.servers[i].term == id.term
        ensures id.index <= |n'.servers[i].log|
      {
        assert OfficeKept(h, n.servers[i], n'.servers[i]);
      }
    }
    forall i | 0 <= i < |n'.servers| && n'.servers[i].role == Leader ensures NextOk(n'.servers[i]) {
      assert OfficeKept(h, n.servers[i], n'.servers[i]);
    }
  }

  lemma GoodLogGrows(pre: Prefixes, pre': Prefixes, log: seq<Entry>)
    requires GoodLog(pre, log)
    requires forall id :: id in pre ==> id in pre' && pre'[id] == pre[id]
    ensures GoodLog(pre', log)
  {
    forall i | 0 <= i < |log| ensures GoodAt(pre', log, i) { assert GoodAt(pre, log, i); }
  }

  /** The log a leader holds after accepting a client command. */
  function Extended(s: Server, command: seq<bv8>): seq<Entry>
  {
    s.log + [Entry(s.term, LastIndex(s.log) + 1, command)]
  }

  /** A leader creates an entry nobody has created before. */
  lemma ProposePreserves(n: Net, h: History, i: nat, command: seq<bv8>) returns (h': History)
    requires LogInv(n, h) && i < |n.servers| && n.servers[i].role == Leader && n.servers[i].term in h.leaders
    requires forall j :: 0 <= j < |n.servers| && j != i && n.servers[j].role == Leader ==> n.servers[j].term != n.servers[i].term
    ensures h' == h.(prefix := h.prefix[EntryId(n.servers[i].term, |n.servers[i].log| + 1) := Extended(n.servers[i], command)])
    ensures forall id :: id in h.prefix ==> id in h'.prefix && h'.prefix[id] == h.prefix[id]
    ensures LogInv(n.(servers := n.servers[i := AppendLocal(n.servers[i], command)]), h')
  {
    var s := n.servers[i];
    var log := Extended(s, command);
    var id := EntryId(s.term, |log|);
    GoodIsContiguous(h.prefix, s.log);
    assert id !in h.prefix by { assert id in h.prefix ==> PrefixOk(n, h, id); }
    h' := h.(prefix := h.prefix[id := log]);
    var n' := n.(servers := n.servers[i := AppendLocal(s, command)]);
    ExtendedIsGood(h.prefix, s, command, h'.prefix);
    forall j | 0 <= j < |n'.servers| ensures GoodLog(h'.prefix, n'.servers[j].log) {
      if j != i { GoodLogGrows(h.prefix, h'.prefix, n.servers[j].log); }
    }
    forall k | 0 <= k < |n'.inbox| ensures GoodMessage(h'.prefix, n'.inbox[k].msg) {
      GoodMessageGrows(h.prefix, h'.prefix, n.inbox[k].msg);
    }
    PrefixesGrow(n, h, n', h', id);
  }

  lemma ExtendedIsGood(pre: Prefixes, s: Server, command: seq<bv8>, pre': Prefixes)
    requires GoodLog(pre, s.log)
    requires EntryId(s.term, |s.log| + 1) !in pre
    requires pre' == pre[EntryId(s.term, |s.log| + 1) := Extended(s, command)]
    ensures GoodLog(pre', Extended(s, command))
  {
    GoodIsContiguous(pre, s.log);
    GoodLogGrows(pre, pre', s.log);
    var log := Extended(s, command);
    forall i | 0 <= i < |log| ensures GoodAt(pre', log, i) {
      if i < |s.log| {
        assert GoodAt(pre', s.log, i);
        assert log[..i + 1] == s.log[..i + 1];
      } else {
        assert log[..i + 1] == log;
      }
    }
  }

  lemma GoodMessageGrows(pre: Prefixes, pre': Prefixes, m: Message)
    requires GoodMessage(pre, m)
    requires forall id :: id in pre ==> id in pre' && pre'[id] == pre[id]
    ensures GoodMessage(pre', m)
  {
    if m.AppendEntries? { GoodLogGrows(pre, pre', SentLog(pre, m)); }
  }

  lemma PrefixesGrow(n: Net, h: History, n': Net, h': History, id: EntryId)
    requires forall d :: d in h.prefix ==> PrefixOk(n, h, d)
    requires |n'.servers| == |n.servers| && h'.leaders == h.leaders
    requires id !in h.prefix && id in h'.prefix && h'.prefix == h.prefix[id := h'.prefix[id]]
    requires PrefixOk(n', h', id)
    requires forall i :: 0 <= i < |n.servers| && n'.servers[i].role == Leader ==>
      n.servers[i].role == Leader && n'.servers[i].term == n.servers[i].term && |n.servers[i].log| <= |n'.servers[i].log|
    ensures forall d :: d in h'.prefix ==> PrefixOk(n', h', d)
  {
    forall d | d in h'.prefix ensures PrefixOk(n', h', d) {
      if d != id {
        assert PrefixOk(n, h, d);
        GoodLogGrows(h.prefix, h'.prefix, h.prefix[d]);
      }
    }
  }
}
