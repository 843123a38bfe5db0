/** The election restriction: which logs win a vote.  Along every run the terms of a log
    never fall, entries of one term lie on one line, and so comparing the last entry
    compares whole logs. */
module RaftVotes {
  import opened Options
  import opened RaftModel
  import opened RaftElection
  import opened RaftLog
  import opened RaftSafety

  // ---------------------------------------------------------------------
  // Terms in logs
  // ---------------------------------------------------------------------

  ghost predicate UpTo(es: seq<Entry>, t: nat)
  {
    forall x :: 0 <= x < |es| ==> es[x].term <= t
  }

  ghost predicate MessageDated(m: Message)
  {
    m.AppendEntries? ==> UpTo(m.entries, m.term)
  }

  /** No entry is from a term later than its holder or its message has seen. */
  ghost predicate Dated(n: Net)
  {
    && (forall i :: 0 <= i < |n.servers| ==> UpTo(n.servers[i].log, n.servers[i].term))
    && (forall k :: 0 <= k < |n.inbox| ==> MessageDated(n.inbox[k].msg))
  }

  lemma {:induction false} EntriesDated(log: seq<Entry>, next: nat, t: nat)
    requires UpTo(log, t)
    ensures UpTo(EntriesFrom(log, next), t)
    decreases |log|
  {
    if log != [] { EntriesDated(log[1..], next, t); }
  }

  lemma {:induction false} MergeDated(log: seq<Entry>, es: seq<Entry>, t: nat)
    requires UpTo(log, t) && UpTo(es, t)
    ensures UpTo(Merge(log, es), t)
    decreases |es|
  {
    if es != [] {
      assert es[0].term <= t;
      MergeDated(MergeOne(log, es[0]), es[1..], t);
    }
  }

  lemma {:induction false} AppendsDated(s: Server, from: nat)
    requires UpTo(s.log, s.term)
    ensures forall k :: 0 <= k < |Appends(s, from)| ==> MessageDated(Appends(s, from)[k].msg)
    decreases s.size - from
  {
    if from < s.size {
      AppendsDated(s, from + 1);
      AppendDated(s, from);
    }
  }

  lemma AppendDated(s: Server, peer: nat)
    requires UpTo(s.log, s.term)
    ensures BuildAppend(s, peer).Some? ==> MessageDated(BuildAppend(s, peer).value)
  {
    hide UpTo, EntriesFrom;
    var next := if peer in s.nextIndex then s.nextIndex[peer] else 1;
    EntriesDated(s.log, next, s.term);
  }

  lemma HandleDated(s: Server, src: nat, m: Message)
    requires UpTo(s.log, s.term) && MessageDated(m)
    ensures var (s', out) := Handle(s, src, m);
      && s.term <= s'.term && UpTo(s'.log, s'.term)
      && forall k :: 0 <= k < |out| ==> MessageDated(out[k].msg)
  {
    hide UpTo, Merge, Consistent, EntriesFrom, Appends, Committed, SetPeers;
    match m
    case RequestVote(_, _, _, _) => LaterUpTo(s.log, s.term, m.term);
    case RequestVoteReply(_, _) =>
      LaterUpTo(s.log, s.term, m.term);
      AppendsDated(BecomeLeader(s.(votes := s.votes + 1)), 0);
    case AppendEntries(_, _, _, _, _, _) =>
      LaterUpTo(s.log, s.term, m.term);
      if m.term >= s.term { MergeDated(s.log, m.entries, m.term); }
    case AppendEntriesReply(_, _, _) =>
      LaterUpTo(s.log, s.term, m.term);
      AppendDated(Handle(s, src, m).0, src);
  }

  lemma LaterUpTo(es: seq<Entry>, t: nat, u: nat)
    requires UpTo(es, t)
    ensures t <= u ==> UpTo(es, u)
  {
  }

  lemma StepDates(n: Net, step: Step)
    requires Dated(n) && Enabled(n, step)
    ensures var n' := Apply(n, step);
      && Dated(n') && |n'.servers| == |n.servers|
      && forall i :: 0 <= i < |n.servers| ==> n.servers[i].term <= n'.servers[i].term
  {
    hide UpTo, Handle, MessageDated, Committed, SetPeers, VoteRequests, Appends;
    match step
    case ElectionTimeout(i) =>
      var s := n.servers[i];
      LaterUpTo(s.log, s.term, s.term + 1);
      RequestsDated(Stand(s));
    case Heartbeat(i) => AppendsDated(n.servers[i], 0);
    case Deliver(k) =>
      var p := n.inbox[k];
      HandleDated(n.servers[p.dst], p.src, p.msg);
    case Lose(k) =>
    case Propose(i, command) => ProposalDated(n.servers[i], command);
  }

  lemma RequestsDated(s: Server)
    ensures forall k :: 0 <= k < |VoteRequests(s, 0)| ==> MessageDated(VoteRequests(s, 0)[k].msg)
  {
    VoteRequestsShape(s, 0);
  }

  lemma ProposalDated(s: Server, command: seq<bv8>)
    requires UpTo(s.log, s.term)
    ensures UpTo(AppendLocal(s, command).log, s.term)
  {
  }

  // ---------------------------------------------------------------------
  // Entries of one term lie on one line
  // ---------------------------------------------------------------------

  ghost predicate Sorted(log: seq<Entry>)
  {
    forall x, y :: 0 <= x <= y < |log| ==> log[x].term <= log[y].term
  }

  ghost predicate OneLine(pre: Prefixes)
  {
    && (forall id :: id in pre ==> Sorted(pre[id]))
    && (forall a, b :: a in pre && b in pre && a.term == b.term && a.index <= b.index ==> pre[a] <= pre[b])
  }

  /** A leader's log holds every entry of its term. */
  ghost predicate LeaderHolds(n: Net, h: History)
  {
    forall i, id :: 0 <= i < |n.servers| && n.servers[i].role == Leader && id in h.prefix && id.term == n.servers[i].term ==>
      h.prefix[id] <= n.servers[i].log
  }

  ghost predicate Ordered(n: Net, h: History)
  {
    Dated(n) && OneLine(h.prefix) && LeaderHolds(n, h)
  }

  lemma GoodIsSorted(pre: Prefixes, log: seq<Entry>)
    requires OneLine(pre) && GoodLog(pre, log)
    ensures Sorted(log)
  {
    if log != [] {
      assert GoodAt(pre, log, |log| - 1);
      assert log[..|log|] == log;
    }
  }

  lemma ExtendedSorted(s: Server, command: seq<bv8>)
    requires Sorted(s.log) && UpTo(s.log, s.term)
    ensures Sorted(Extended(s, command))
  {
  }

  /** A leader in office only ever adds to its log. */
  lemma LeaderAppends(n: Net, h: History, step: Step, i: nat)
    requires Safe(n, h) && Enabled(n, step) && i < |n.servers| && n.servers[i].role == Leader
    requires Apply(n, step).servers[i].role == Leader && Apply(n, step).servers[i].term == n.servers[i].term
    ensures n.servers[i].log <= Apply(n, step).servers[i].log
  {
    hide GrantOk, CountOk, LeaderOk, TokenOk, Merge, Consistent, Committed, SetPeers, Appends;
    assert ServerOk(n, h, i);
    if step.Deliver? && n.inbox[step.packet].dst == i {
      var p := n.inbox[step.packet];
      assert PacketOk(n, h, p);
      if p.msg.AppendEntries? { FollowerSide(h.prefix, n.servers[i], p.msg); }
    }
  }

  lemma NewLine(n: Net, h: History, step: Step, h': History)
    requires Safe(n, h) && Enabled(n, step) && Explained(n, h, step, h') && Ordered(n, h)
    ensures OneLine(h'.prefix)
  {
    hide Inv, Grants, Apply, GoodLog;
    forall id | id in h'.prefix ensures Sorted(h'.prefix[id]) {
      if id !in h.prefix { CreatedSorted(n, h, step, id, h'.prefix[id]); }
    }
    forall a, b | a in h'.prefix && b in h'.prefix && a.term == b.term && a.index <= b.index ensures h'.prefix[a] <= h'.prefix[b] {
      if a in h.prefix && b !in h.prefix {
        CreatedAfter(n, h, step, b, h'.prefix[b], a);
      } else if a !in h.prefix && b in h.prefix {
        CreatedAfter(n, h, step, a, h'.prefix[a], b);
      }
    }
  }

  lemma CreatedSorted(n: Net, h: History, step: Step, id: EntryId, log: seq<Entry>)
    requires LogInv(n, h) && Enabled(n, step) && Creates(n, step, id, log) && Ordered(n, h)
    ensures Sorted(log)
  {
    var s := n.servers[step.server];
    GoodIsSorted(h.prefix, s.log);
    ExtendedSorted(s, step.command);
  }

  lemma CreatedAfter(n: Net, h: History, step: Step, id: EntryId, log: seq<Entry>, a: EntryId)
    requires LogInv(n, h) && Enabled(n, step) && Creates(n, step, id, log) && LeaderHolds(n, h) && a in h.prefix && a.term == id.term
    ensures h.prefix[a] <= log && a.index < id.index
  {
    hide GoodLog;
    assert PrefixOk(n, h, a);
  }

  /** A leader of a term that already has entries was its leader before the step. */
  lemma WasInOffice(n: Net, h: History, n': Net, h': History, i: nat, id: EntryId)
    requires Inv(n, h) && Inv(n', h') && Extends(h, h') && |n'.servers| == |n.servers| && i < |n.servers|
    requires n'.servers[i].role == Leader && n.servers[i].term <= n'.servers[i].term && id.term == n'.servers[i].term
    requires id in h.prefix && PrefixOk(n, h, id)
    ensures n.servers[i].role == Leader && n.servers[i].term == n'.servers[i].term
  {
    hide GrantOk, CountOk, TokenOk, GoodLog, PacketOk;
    assert ServerOk(n', h', i);
    assert LeaderOk(n, h, id.term);
  }

  lemma LeaderStillHolds(n: Net, h: History, step: Step, h': History, i: nat, id: EntryId)
    requires Safe(n, h) && Enabled(n, step) && Safe(Apply(n, step), h') && Explained(n, h, step, h') && Ordered(n, h)
    requires var n' := Apply(n, step);
      && |n'.servers| == |n.servers| && i < |n.servers| && n.servers[i].term <= n'.servers[i].term
      && n'.servers[i].role == Leader && id in h'.prefix && id.term == n'.servers[i].term
    ensures h'.prefix[id] <= Apply(n, step).servers[i].log
  {
    hide Inv, Grants, Apply, GoodLog, Dated, OneLine;
    var n' := Apply(n, step);
    if id !in h.prefix {
      CreatorHolds(n, h, step, i, id, h'.prefix[id]);
    } else {
      assert PrefixOk(n, h, id);
      WasInOffice(n, h, n', h', i, id);
      LeaderAppends(n, h, step, i);
    }
  }

  lemma CreatorHolds(n: Net, h: History, step: Step, i: nat, id: EntryId, log: seq<Entry>)
    requires Inv(n, h) && Enabled(n, step) && Creates(n, step, id, log) && i < |n.servers|
    requires Apply(n, step).servers[i].role == Leader && Apply(n, step).servers[i].term == id.term
    ensures Apply(n, step).servers[i].log == log
  {
    hide GrantOk, CountOk, TokenOk, LeaderOk, PacketOk, Committed;
    assert ServerOk(n, h, i) && ServerOk(n, h, step.server);
  }

  lemma StepOrders(n: Net, h: History, step: Step, h': History)
    requires Safe(n, h) && Enabled(n, step) && Safe(Apply(n, step), h') && Explained(n, h, step, h') && Ordered(n, h)
    ensures Ordered(Apply(n, step), h')
  {
    hide Safe, Explained, Apply, Dated, OneLine;
    StepDates(n, step);
    NewLine(n, h, step, h');
    var n' := Apply(n, step);
    forall i, id | 0 <= i < |n'.servers| && n'.servers[i].role == Leader && id in h'.prefix && id.term == n'.servers[i].term
      ensures h'.prefix[id] <= n'.servers[i].log
    {
      LeaderStillHolds(n, h, step, h', i, id);
    }
  }

  // ---------------------------------------------------------------------
  // Runs with their record
  // ---------------------------------------------------------------------

  ghost predicate Told(size: nat, states: seq<Net>, steps: seq<Step>, hs: seq<History>)
  {
    && IsRun(size, states, steps) && |hs| == |states| && hs[0] == EMPTY_HISTORY
    && (forall i :: 0 <= i < |hs| ==> Safe(states[i], hs[i]) && Ordered(states[i], hs[i]))
    && (forall i, j :: 0 <= i <= j < |hs| ==> Extends(hs[i], hs[j]))
    && (forall i :: 0 <= i < |steps| ==> Explained(states[i], hs[i], steps[i], hs[i + 1]))
  }

  lemma Tell(size: nat, states: seq<Net>, steps: seq<Step>) returns (hs: seq<History>)
    requires IsRun(size, states, steps)
    ensures Told(size, states, steps, hs)
  {
    hide Safe, Ordered, Extends, Explained, Apply, Enabled;
    hs := RunIsSafe(size, states, steps);
    forall i | 0 <= i < |hs| ensures Ordered(states[i], hs[i]) { OrderedAt(size, states, steps, hs, i); }
  }

  lemma {:induction false} OrderedAt(size: nat, states: seq<Net>, steps: seq<Step>, hs: seq<History>, i: nat)
    requires IsRun(size, states, steps) && |hs| == |states| && hs[0] == EMPTY_HISTORY && i < |hs|
    requires forall j :: 0 <= j < |hs| ==> Safe(states[j], hs[j])
    requires forall j :: 0 <= j < |steps| ==> Explained(states[j], hs[j], steps[j], hs[j + 1])
    ensures Ordered(states[i], hs[i])
    decreases i
  {
    hide Safe, Explained, Apply, Enabled;
    if i > 0 {
      hide Ordered;
      OrderedAt(size, states, steps, hs, i - 1);
      assert Enabled(states[i - 1], steps[i - 1]) && states[i] == Apply(states[i - 1], steps[i - 1]);
      assert Explained(states[i - 1], hs[i - 1], steps[i - 1], hs[i - 1 + 1]);
      StepOrders(states[i - 1], hs[i - 1], steps[i - 1], hs[i]);
    }
  }

  lemma {:induction false} TermsRise(size: nat, states: seq<Net>, steps: seq<Step>, hs: seq<History>, i: nat, j: nat, c: nat)
    requires Told(size, states, steps, hs) && i <= j < |states| && c < size
    ensures |states[i].servers| == |states[j].servers| == size && states[i].servers[c].term <= states[j].servers[c].term
    decreases j - i
  {
    hide Safe, Extends, Explained, Apply, Enabled, OneLine, LeaderHolds, Dated;
    SameServers(size, states, steps, i);
    if i < j {
      TermsRise(size, states, steps, hs, i, j - 1, c);
      assert Enabled(states[j - 1], steps[j - 1]) && states[j] == Apply(states[j - 1], steps[j - 1]);
      StepDates(states[j - 1], steps[j - 1]);
    }
  }

  // ---------------------------------------------------------------------
  // Comparing logs by their last entries
  // ---------------------------------------------------------------------

  /** Nothing in `voter` is from a later term than the end of `cand`, and if both end in the same term then
      `voter` is where `cand` began. */
  ghost predicate NoLaterThan(voter: seq<Entry>, cand: seq<Entry>)
  {
    && UpTo(voter, LastTerm(cand))
    && (LastTerm(voter) == LastTerm(cand) ==> voter <= cand)
  }

  lemma LastEntries(pre: Prefixes, voter: seq<Entry>, cand: seq<Entry>)
    requires OneLine(pre) && GoodLog(pre, voter) && GoodLog(pre, cand) && voter != [] && |voter| <= |cand|
    requires voter[|voter| - 1].term == cand[|cand| - 1].term
    ensures voter <= cand
  {
    assert GoodAt(pre, voter, |voter| - 1) && GoodAt(pre, cand, |cand| - 1);
    assert voter[..|voter|] == voter && cand[..|cand|] == cand;
    var t := voter[|voter| - 1].term;
    assert pre[EntryId(t, |voter|)] <= pre[EntryId(t, |cand|)];
  }

  /** Comparing last term, then last index, compares the logs. */
  lemma ComparisonIsRight(pre: Prefixes, s: Server, cand: seq<Entry>)
    requires OneLine(pre) && GoodLog(pre, s.log) && GoodLog(pre, cand)
    ensures UpToDate(s, LastIndex(cand), LastTerm(cand)) <==> NoLaterThan(s.log, cand)
  {
    hide OneLine, GoodLog;
    var voter := s.log;
    GoodIsContiguous(pre, voter);
    GoodIsContiguous(pre, cand);
    GoodIsSorted(pre, voter);
    if voter != [] {
      assert UpTo(voter, LastTerm(cand)) <==> LastTerm(voter) <= LastTerm(cand);
      if LastTerm(voter) == LastTerm(cand) && 0 < |voter| <= |cand| { LastEntries(pre, voter, cand); }
    }
  }

  lemma NoLaterThanMore(voter: seq<Entry>, cand: seq<Entry>, more: seq<Entry>)
    requires NoLaterThan(voter, cand) && cand <= more && Sorted(more)
    ensures NoLaterThan(voter, more)
  {
    if cand != [] { assert more[|cand| - 1].term <= more[|more| - 1].term; }
  }

  // ---------------------------------------------------------------------
  // Where a request comes from
  // ---------------------------------------------------------------------

  /** State o is the one in which c had just stood for election in term t. */
  ghost predicate Stood(states: seq<Net>, steps: seq<Step>, o: nat, c: nat, t: nat)
  {
    && 0 < o < |states| && o <= |steps| && steps[o - 1] == ElectionTimeout(c)
    && c < |states[o].servers| && c < |states[o - 1].servers|
    && states[o].servers[c].term == t == states[o - 1].servers[c].term + 1
  }

  /** The request describes the log its sender holds. */
  ghost predicate Describes(n: Net, p: Packet)
    requires p.msg.RequestVote?
  {
    && p.src < |n.servers| && p.msg.term == n.servers[p.src].term
    && p.msg.lastLogIndex == LastIndex(n.servers[p.src].log) && p.msg.lastLogTerm == LastTerm(n.servers[p.src].log)
  }

  lemma {:induction false} RequestsDescribe(s: Server, from: nat)
    ensures forall k :: 0 <= k < |VoteRequests(s, from)| ==>
      VoteRequests(s, from)[k].msg == RequestVote(s.term, s.id, LastIndex(s.log), LastTerm(s.log))
    decreases s.size - from
  {
    if from < s.size { RequestsDescribe(s, from + 1); }
  }

  lemma {:induction false} HandlersDoNotAsk(s: Server, src: nat, m: Message)
    ensures forall k :: 0 <= k < |Handle(s, src, m).1| ==> !Handle(s, src, m).1[k].msg.RequestVote?
  {
    hide Merge, Consistent, Committed, SetPeers, EntriesFrom;
    if m.RequestVoteReply? { NoRequests(BecomeLeader(s.(votes := s.votes + 1)), 0); }
  }

  lemma {:induction false} NoRequests(s: Server, from: nat)
    ensures forall k :: 0 <= k < |Appends(s, from)| ==> !Appends(s, from)[k].msg.RequestVote?
    decreases s.size - from
  {
    if from < s.size { NoRequests(s, from + 1); }
  }

  lemma StepAsks(n: Net, step: Step, p: Packet)
    requires Enabled(n, step) && p in Apply(n, step).inbox && p.msg.RequestVote?
    ensures p in n.inbox || (step == ElectionTimeout(p.src) && Describes(Apply(n, step), p))
  {
    hide Handle, VoteRequests, Appends;
    match step
    case ElectionTimeout(i) => RequestsDescribe(Stand(n.servers[i]), 0);
    case Heartbeat(i) => NoRequests(n.servers[i], 0);
    case Deliver(k) => HandlersDoNotAsk(n.servers[n.inbox[k].dst], n.inbox[k].src, n.inbox[k].msg);
    case Lose(k) =>
    case Propose(i, command) =>
  }

  /** Every request in flight was sent by a server that stood for election, and describes the log it had then. */
  lemma {:induction false} Asked(size: nat, states: seq<Net>, steps: seq<Step>, i: nat, p: Packet) returns (o: nat)
    requires IsRun(size, states, steps) && i < |states| && p in states[i].inbox && p.msg.RequestVote?
    ensures o <= i && Stood(states, steps, o, p.src, p.msg.term) && Describes(states[o], p)
    decreases i
  {
    if i > 0 {
      assert Enabled(states[i - 1], steps[i - 1]) && states[i] == Apply(states[i - 1], steps[i - 1]);
      StepAsks(states[i - 1], steps[i - 1], p);
      if p in states[i - 1].inbox { o := Asked(size, states, steps, i - 1, p); } else { o := i; }
    }
  }

  // ---------------------------------------------------------------------
  // The election restriction
  // ---------------------------------------------------------------------

  /** A vote is granted exactly when the request is not of an earlier term, the vote of that term is free, and
      the voter's log is no later than the candidate's as it stood. */
  lemma GrantedExactly(size: nat, states: seq<Net>, steps: seq<Step>, i: nat, k: nat) returns (o: nat)
    requires IsRun(size, states, steps) && i < |states| && k < |states[i].inbox| && states[i].inbox[k].msg.RequestVote?
    ensures var p := states[i].inbox[k];
      && o <= i && Stood(states, steps, o, p.src, p.msg.term)
      && p.dst < |states[i].servers|
      && var voter := states[i].servers[p.dst];
         (SaysYes(states[i], k) <==>
            && p.msg.term >= voter.term
            && (p.msg.term > voter.term || voter.votedFor == None || voter.votedFor == Some(p.src))
            && NoLaterThan(voter.log, states[o].servers[p.src].log))
  {
    hide Explained, Extends, OneLine, GoodLog, NoLaterThan, UpToDate, Apply, Enabled, GrantOk, CountOk, LeaderOk, TokenOk;
    var p := states[i].inbox[k];
    o := Asked(size, states, steps, i, p);
    var hs := Tell(size, states, steps);
    assert PacketOk(states[i], hs[i], p);
    var voter, cand := states[i].servers[p.dst], states[o].servers[p.src].log;
    LaterGood(hs[o], hs[i], cand);
    ComparisonIsRight(hs[i].prefix, StepDown(voter, p.msg.term), cand);
  }

  lemma LaterGood(h: History, h': History, log: seq<Entry>)
    requires Extends(h, h') && GoodLog(h.prefix, log)
    ensures GoodLog(h'.prefix, log)
  {
    GoodLogGrows(h.prefix, h'.prefix, log);
  }

  /** A campaign goes on with the log it began with, and office only adds to it. */
  lemma CampaignStep(n: Net, h: History, step: Step, c: nat)
    requires Safe(n, h) && Enabled(n, step) && c < |n.servers| && c < |Apply(n, step).servers| && Apply(n, step).servers[c].role != Follower
    ensures step == ElectionTimeout(c) ||
      var s, s' := n.servers[c], Apply(n, step).servers[c]; s.role != Follower && s'.term == s.term && s.log <= s'.log
  {
    hide GrantOk, CountOk, LeaderOk, TokenOk, Merge, Consistent, Committed, SetPeers, Appends, GoodLog;
    assert ServerOk(n, h, c);
    if step.Deliver? && n.inbox[step.packet].dst == c {
      var p := n.inbox[step.packet];
      assert PacketOk(n, h, p);
      if p.msg.AppendEntries? { CampaignAppend(n.servers[c], p.msg); }
    }
  }

  lemma CampaignAppend(s: Server, m: Message)
    requires m.AppendEntries? && (s.role == Leader ==> m.term != s.term)
    ensures OnAppend(s, m).0.role != Follower ==> OnAppend(s, m).0 == s
  {
  }

  lemma {:induction false} Campaign(size: nat, states: seq<Net>, steps: seq<Step>, hs: seq<History>, i: nat, c: nat) returns (o: nat)
    requires Told(size, states, steps, hs) && i < |states| && c < |states[i].servers| && states[i].servers[c].role != Follower
    ensures o <= i && Stood(states, steps, o, c, states[i].servers[c].term) && states[o].servers[c].log <= states[i].servers[c].log
    decreases i
  {
    hide Safe, Ordered, Extends, Explained;
    SameServers(size, states, steps, i);
    if i > 0 {
      assert Enabled(states[i - 1], steps[i - 1]) && states[i] == Apply(states[i - 1], steps[i - 1]);
      SameServers(size, states, steps, i - 1);
      CampaignStep(states[i - 1], hs[i - 1], steps[i - 1], c);
      if steps[i - 1] == ElectionTimeout(c) { o := i; } else { o := Campaign(size, states, steps, hs, i - 1, c); }
    }
  }

  /** A server stands at most once in a term. */
  lemma OneStand(size: nat, states: seq<Net>, steps: seq<Step>, hs: seq<History>, a: nat, b: nat, c: nat, t: nat)
    requires Told(size, states, steps, hs) && c < size && Stood(states, steps, a, c, t) && Stood(states, steps, b, c, t)
    ensures a == b
  {
    hide Told;
    if a < b { TermsRise(size, states, steps, hs, a, b - 1, c); }
    if b < a { TermsRise(size, states, steps, hs, b, a - 1, c); }
  }

  /** In step g voter v gave its vote for term t to c, whose log in state i is at least as late as v's was then. */
  ghost predicate VotedAt(states: seq<Net>, steps: seq<Step>, i: nat, g: nat, v: nat, c: nat, t: nat)
    requires i < |states| && c < |states[i].servers|
  {
    && g < i && g < |steps| && steps[g].Deliver? && SaysYes(states[g], steps[g].packet)
    && states[g].inbox[steps[g].packet].dst == v && states[g].inbox[steps[g].packet].src == c && states[g].inbox[steps[g].packet].msg.term == t
    && NoLaterThan(states[g].servers[v].log, states[i].servers[c].log)
  }

  lemma {:induction false} GrantMoment(size: nat, states: seq<Net>, steps: seq<Step>, hs: seq<History>, i: nat, slot: Slot) returns (g: nat)
    requires Told(size, states, steps, hs) && i < |states| && slot in hs[i].granted
    ensures g < i && g < |steps| && Grants(states[g], steps[g], slot, hs[i].granted[slot])
    decreases i
  {
    hide Safe, Ordered, Extends, Grants, Apply, Enabled, Creates;
    if i > 0 {
      assert Explained(states[i - 1], hs[i - 1], steps[i - 1], hs[i - 1 + 1]);
      if slot in hs[i - 1].granted && hs[i].granted[slot] == hs[i - 1].granted[slot] {
        g := GrantMoment(size, states, steps, hs, i - 1, slot);
      } else {
        g := i - 1;
      }
    }
  }

  lemma VoterWasBehind(size: nat, states: seq<Net>, steps: seq<Step>, hs: seq<History>, i: nat, c: nat, v: nat) returns (g: nat)
    requires Told(size, states, steps, hs) && i < |states| && c < |states[i].servers| && states[i].servers[c].role == Leader && v != c
    requires var slot := Slot(v, states[i].servers[c].term); slot in hs[i].granted && hs[i].granted[slot] == c
    ensures VotedAt(states, steps, i, g, v, c, states[i].servers[c].term)
  {
    hide Told, Apply, NoLaterThan, SaysYes;
    var t := states[i].servers[c].term;
    ToldIsRun(size, states, steps, hs, i);
    g := GrantMoment(size, states, steps, hs, i, Slot(v, t));
    var k := steps[g].packet;
    assert k < |states[g].inbox| && states[g].inbox[k].msg.RequestVote? by { UseYes(states[g], k); }
    var a := GrantedExactly(size, states, steps, g, k);
    var b := Campaign(size, states, steps, hs, i, c);
    OneStand(size, states, steps, hs, a, b, c, t);
    LogSorted(size, states, steps, hs, i, c);
    NoLaterThanMore(states[g].servers[v].log, states[a].servers[c].log, states[i].servers[c].log);
  }

  lemma UseYes(n: Net, k: nat)
    requires SaysYes(n, k)
    ensures k < |n.inbox| && n.inbox[k].msg.RequestVote?
  {
  }

  lemma ToldIsRun(size: nat, states: seq<Net>, steps: seq<Step>, hs: seq<History>, i: nat)
    requires Told(size, states, steps, hs) && i < |states|
    ensures IsRun(size, states, steps) && |states[i].servers| == size
  {
    hide Safe, Ordered, Extends, Explained;
    SameServers(size, states, steps, i);
  }

  lemma LogSorted(size: nat, states: seq<Net>, steps: seq<Step>, hs: seq<History>, i: nat, c: nat)
    requires Told(size, states, steps, hs) && i < |states| && c < |states[i].servers|
    ensures Sorted(states[i].servers[c].log)
  {
    hide Extends, Explained, Apply, Enabled, Inv, Sorted, OneLine;
    GoodIsSorted(hs[i].prefix, states[i].servers[c].log);
  }

  /** Every leader holds a log at least as late as those of a quorum, each at the moment it gave its vote. */
  lemma LeaderIsUpToDate(size: nat, states: seq<Net>, steps: seq<Step>, i: nat, c: nat) returns (q: set<nat>)
    requires IsRun(size, states, steps) && i < |states| && c < |states[i].servers| && states[i].servers[c].role == Leader
    ensures |q| >= Quorum(size)
    ensures forall v :: v in q ==> v < size && (v == c || exists g: nat :: VotedAt(states, steps, i, g, v, c, states[i].servers[c].term))
  {
    hide VotedAt, Extends, Explained, Ordered, LogInv, Apply, Enabled;
    var hs := Tell(size, states, steps);
    SameServers(size, states, steps, i);
    var t := states[i].servers[c].term;
    assert ServerOk(states[i], hs[i], c) && LeaderOk(states[i], hs[i], t);
    q := Counted(hs[i], c, t);
    CountedVotersAreServers(states[i], hs[i], c, t);
    forall v | v in q ensures v < size && (v == c || exists g: nat :: VotedAt(states, steps, i, g, v, c, t)) {
      if v != c { var g := VoterWasBehind(size, states, steps, hs, i, c, v); }
    }
  }
}
