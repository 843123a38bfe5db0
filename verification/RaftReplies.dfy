/** What every message does to its receiver and to the answer, in terms of the logs
    themselves: who is asked, what is accepted, how a tally ends, and what gets committed. */
module RaftReplies {
  import opened Options
  import opened RaftModel
  import opened RaftElection
  import opened RaftLog
  import opened RaftSafety
  import opened RaftVotes

  // ---------------------------------------------------------------------
  // Who is asked
  // ---------------------------------------------------------------------

  /** A candidate asks every peer for its vote, and describes its own log. */
  lemma {:induction false} EveryPeerIsAsked(s: Server, from: nat, peer: nat)
    requires from <= peer < s.size && peer != s.id
    ensures Send(peer, RequestVote(s.term, s.id, LastIndex(s.log), LastTerm(s.log))) in VoteRequests(s, from)
    decreases s.size - from
  {
    if from < peer { EveryPeerIsAsked(s, from + 1, peer); }
  }

  /** A broadcast reaches every peer it has a message for. */
  lemma {:induction false} EveryPeerIsSent(s: Server, from: nat, peer: nat)
    requires from <= peer < s.size && peer != s.id && BuildAppend(s, peer).Some?
    ensures Send(peer, BuildAppend(s, peer).value) in Appends(s, from)
    decreases s.size - from
  {
    hide BuildAppend;
    if from < peer { EveryPeerIsSent(s, from + 1, peer); }
  }

  /** The message is the leader's log from the peer's next index on, and says what stands before it. */
  lemma AppendIsSuffix(pre: Prefixes, s: Server, peer: nat)
    requires GoodLog(pre, s.log) && peer in s.nextIndex && 1 <= s.nextIndex[peer] <= |s.log| + 1
    ensures var prev := s.nextIndex[peer] - 1;
      BuildAppend(s, peer) == Some(AppendEntries(s.term, s.id, prev, if prev == 0 then 0 else s.log[prev - 1].term, s.log[prev..], s.commit))
  {
    var prev := s.nextIndex[peer] - 1;
    GoodIsContiguous(pre, s.log);
    EntriesFromIs(s.log, prev + 1, 0);
    PositionIn(s.log, prev);
  }

  // ---------------------------------------------------------------------
  // Tallies
  // ---------------------------------------------------------------------

  /** A yes of the current term adds one vote, and a candidate takes office exactly with a majority. */
  lemma TallyDecides(s: Server, m: Message)
    requires m.RequestVoteReply? && m.granted && s.role == Candidate && m.term == s.term
    ensures var s' := OnVoteReply(s, m).0;
      && s'.votes == s.votes + 1 && s'.term == s.term && s'.log == s.log
      && (s'.role == Leader <==> 2 * (s.votes + 1) > s.size)
      && (s'.role != Leader ==> s'.role == Candidate)
  {
  }

  /** Nobody waits for an election that is won: a candidate never has a majority. */
  lemma {:induction false} CandidatesLackMajority(size: nat, states: seq<Net>, steps: seq<Step>, i: nat, c: nat)
    requires IsRun(size, states, steps) && i < |states| && c < |states[i].servers| && states[i].servers[c].role == Candidate
    ensures states[i].servers[c].size == size && 2 * states[i].servers[c].votes <= size
    decreases i
  {
    hide Apply, Enabled;
    SameServers(size, states, steps, i);
    SameSize(size, states, steps, i, c);
    if i > 0 {
      assert Enabled(states[i - 1], steps[i - 1]) && states[i] == Apply(states[i - 1], steps[i - 1]);
      SameServers(size, states, steps, i - 1);
      SameSize(size, states, steps, i - 1, c);
      CandidateStep(states[i - 1], steps[i - 1], c);
      if states[i - 1].servers[c].role == Candidate { CandidatesLackMajority(size, states, steps, i - 1, c); }
    } else {
      InitFollows(size, c);
    }
  }

  lemma InitFollows(size: nat, c: nat)
    requires c < size
    ensures Init(size).servers[c].role == Follower && Init(size).servers[c].size == size && Init(size).servers[c].commit == 0
  {
  }

  lemma CandidateStep(n: Net, step: Step, c: nat)
    requires Enabled(n, step) && c < |n.servers| && c < |Apply(n, step).servers| && Apply(n, step).servers[c].role == Candidate
    ensures var s, s' := n.servers[c], Apply(n, step).servers[c];
      s'.size == s.size && (2 * s'.votes <= s.size || (s.role == Candidate && s'.votes == s.votes))
  {
    hide Merge, Consistent, Committed, SetPeers, Appends, VoteRequests, EntriesFrom;
  }

  lemma {:induction false} SameSize(size: nat, states: seq<Net>, steps: seq<Step>, i: nat, c: nat)
    requires IsRun(size, states, steps) && i < |states| && c < |states[i].servers|
    ensures states[i].servers[c].size == size
    decreases i
  {
    hide Merge, Consistent, Committed, SetPeers, Appends, VoteRequests, EntriesFrom, Apply;
    SameServers(size, states, steps, i);
    if i > 0 {
      assert Enabled(states[i - 1], steps[i - 1]) && states[i] == Apply(states[i - 1], steps[i - 1]);
      SameServers(size, states, steps, i - 1);
      SameSize(size, states, steps, i - 1, c);
      SizeStays(states[i - 1], steps[i - 1], c);
    } else {
      InitFollows(size, c);
    }
  }

  lemma SizeStays(n: Net, step: Step, c: nat)
    requires Enabled(n, step) && c < |n.servers|
    ensures |Apply(n, step).servers| == |n.servers| && Apply(n, step).servers[c].size == n.servers[c].size
  {
    hide Merge, Consistent, Committed, SetPeers, Appends, VoteRequests, EntriesFrom;
  }

  // ---------------------------------------------------------------------
  // What a follower accepts
  // ---------------------------------------------------------------------

  lemma SamePrefixIsConsistent(pre: Prefixes, log: seq<Entry>, m: Message, leader: seq<Entry>)
    requires GoodLog(pre, log) && GoodLog(pre, leader) && m.AppendEntries? && GoodMessage(pre, m) && SentLog(pre, m) == leader
    requires 0 < m.prevIndex <= |leader| ==> leader[m.prevIndex - 1].term == m.prevTerm
    ensures Consistent(log, m.prevIndex, m.prevTerm) <==> m.prevIndex <= |log| && log[..m.prevIndex] == leader[..m.prevIndex]
  {
    if Consistent(log, m.prevIndex, m.prevTerm) { ConsistentMeansEqualPrefix(pre, log, m); }
    if 0 < m.prevIndex <= |log| && log[..m.prevIndex] == leader[..m.prevIndex] {
      GoodIsContiguous(pre, log);
      PositionIn(log, m.prevIndex);
      var x := m.prevIndex - 1;
      assert log[x] == log[..m.prevIndex][x] == leader[..m.prevIndex][x];
    }
  }

  lemma CutTerm(pre: Prefixes, s: Server, peer: nat)
    requires GoodLog(pre, s.log) && BuildAppend(s, peer).Some?
    ensures var m := BuildAppend(s, peer).value; 0 < m.prevIndex <= |s.log| ==> s.log[m.prevIndex - 1].term == m.prevTerm
  {
    hide GoodLog, EntriesFrom;
    GoodIsContiguous(pre, s.log);
    PositionIn(s.log, BuildAppend(s, peer).value.prevIndex);
  }

  /** An AppendEntries is accepted exactly when it is not of an earlier term and the follower's log agrees with the
      leader's, as it was when the message was sent, up to the point where the message begins. The answer tells how
      long the follower's log is now. */
  lemma AcceptedExactly(size: nat, states: seq<Net>, steps: seq<Step>, i: nat, k: nat) returns (o: nat, accepted: bool)
    requires IsRun(size, states, steps) && i < |states| && k < |states[i].inbox| && states[i].inbox[k].msg.AppendEntries?
    ensures var p := states[i].inbox[k];
      && o <= i && CutFrom(states[o], p) && p.dst < |states[i].servers|
      && p.msg.prevIndex <= |states[o].servers[p.src].log|
      && var s, leader := states[i].servers[p.dst], states[o].servers[p.src].log;
         && (accepted <==> p.msg.term >= s.term && p.msg.prevIndex <= |s.log| && s.log[..p.msg.prevIndex] == leader[..p.msg.prevIndex])
         && var (s', out) := Handle(s, p.src, p.msg);
            && out == [Send(p.src, AppendEntriesReply(Max(s.term, p.msg.term), accepted, |s'.log|))]
            && (!accepted ==> s'.log == s.log && s'.commit == s.commit)
  {
    hide Explained, Extends, OneLine, GoodLog, Apply, Enabled, GrantOk, CountOk, LeaderOk, TokenOk, Dated, LeaderHolds, Merge, Consistent, BuildAppend, PrefixOk;
    var p := states[i].inbox[k];
    o := Origin(size, states, steps, i, p);
    var hs := Tell(size, states, steps);
    assert PacketOk(states[i], hs[i], p);
    var s, leader := states[i].servers[p.dst], states[o].servers[p.src];
    accepted := p.msg.term >= s.term && Consistent(s.log, p.msg.prevIndex, p.msg.prevTerm);
    assert NextOk(leader);
    assert ServerOk(states[o], hs[o], p.src);
    assert |states[o].servers| == |states[i].servers| by { SameServers(size, states, steps, o); SameServers(size, states, steps, i); }
    BuildAppendIsGood(hs[o].prefix, leader, p.dst);
    CutTerm(hs[o].prefix, leader, p.dst);
    SentStays(hs[o], hs[i], p.msg, leader.log);
    SamePrefixIsConsistent(hs[i].prefix, s.log, p.msg, leader.log);
    AnswerLength(hs[i].prefix, s, p.msg);
  }

  lemma SentStays(h: History, h': History, m: Message, log: seq<Entry>)
    requires Extends(h, h') && m.AppendEntries? && GoodMessage(h.prefix, m) && SentLog(h.prefix, m) == log && GoodLog(h.prefix, log)
    ensures GoodMessage(h'.prefix, m) && SentLog(h'.prefix, m) == log && GoodLog(h'.prefix, log) && m.prevIndex <= |log|
  {
    GoodMessageGrows(h.prefix, h'.prefix, m);
    GoodLogGrows(h.prefix, h'.prefix, log);
  }

  lemma AnswerLength(pre: Prefixes, s: Server, m: Message)
    requires GoodLog(pre, s.log) && m.AppendEntries? && GoodMessage(pre, m)
    ensures LastIndex(OnAppend(s, m).0.log) == |OnAppend(s, m).0.log| && LastIndex(s.log) == |s.log|
  {
    hide GoodLog, Merge, Consistent;
    GoodIsContiguous(pre, s.log);
    if Consistent(s.log, m.prevIndex, m.prevTerm) {
      AppendReplicates(pre, s.log, m);
      GoodIsContiguous(pre, Merge(s.log, m.entries));
    }
  }

  // ---------------------------------------------------------------------
  // What a leader learns from the answers
  // ---------------------------------------------------------------------

  /** A rejection of the current term moves the peer's next index back by one, and what is sent again begins there. */
  lemma RejectionBacksOff(pre: Prefixes, s: Server, src: nat, m: Message)
    requires GoodLog(pre, s.log) && m.AppendEntriesReply? && !m.success && m.term == s.term && s.role == Leader
    requires src in s.nextIndex && 2 <= s.nextIndex[src] <= |s.log| + 1
    ensures var (s', out) := OnAppendReply(s, src, m);
      var prev := s.nextIndex[src] - 2;
      && s' == s.(nextIndex := s.nextIndex[src := s.nextIndex[src] - 1])
      && out == [Send(src, AppendEntries(s.term, s.id, prev, if prev == 0 then 0 else s.log[prev - 1].term, s.log[prev..], s.commit))]
  {
    hide GoodLog, BuildAppend;
    var s' := s.(nextIndex := s.nextIndex[src := s.nextIndex[src] - 1]);
    AppendIsSuffix(pre, s', src);
  }

  /** How many servers are known to hold the first n entries: the leader and the peers that said so. */
  ghost function Holders(s: Server, n: nat): set<nat>
  {
    set p | p in s.matchIndex && s.matchIndex[p] >= n
  }

  /** Entry n is one of the leader's own term, and with the leader a majority holds it. */
  ghost predicate MayCommit(s: Server, n: nat)
  {
    1 <= n <= |s.log| && s.log[n - 1].term == s.term && 2 * (1 + |Holders(s, n)|) > s.size
  }

  /** The commit index moves to the greatest index that may be committed, and otherwise stays. */
  lemma CommitsTheGreatest(pre: Prefixes, s: Server)
    requires GoodLog(pre, s.log)
    ensures var c := AdvanceCommit(s).commit;
      && (c == s.commit || (c > s.commit && MayCommit(s, c)))
      && forall n :: n > s.commit && MayCommit(s, n) ==> n <= c
  {
    hide GoodLog, Committed;
    GoodIsContiguous(pre, s.log);
    forall n: nat | 1 <= n <= |s.log| ensures Committable(s, n) <==> MayCommit(s, n) {
      PositionIn(s.log, n);
      assert Holders(s, n) == set p | p in s.matchIndex && s.matchIndex[p] >= n;
    }
  }

  /** An acceptance of the current term records how much the peer holds, never less than before. */
  lemma AcceptanceIsRecorded(pre: Prefixes, s: Server, src: nat, m: Message)
    requires GoodLog(pre, s.log) && m.AppendEntriesReply? && m.success && m.term == s.term && s.role == Leader
    ensures var (s', out) := OnAppendReply(s, src, m);
      var known := if src in s.matchIndex then s.matchIndex[src] else 0;
      && out == [] && s' == s.(matchIndex := s'.matchIndex, commit := s'.commit)
      && s'.matchIndex == s.matchIndex[src := if m.matchIndex > known then m.matchIndex else known]
      && (s'.commit == s.commit || (s'.commit > s.commit && MayCommit(s', s'.commit)))
      && forall n :: n > s.commit && MayCommit(s', n) ==> n <= s'.commit
  {
    hide GoodLog, Committed, MayCommit;
    var known := if src in s.matchIndex then s.matchIndex[src] else 0;
    var r := s.(matchIndex := s.matchIndex[src := Max(known, m.matchIndex)]);
    CommitsTheGreatest(pre, r);
    var s' := OnAppendReply(s, src, m).0;
    assert s' == AdvanceCommit(r);
    forall n: nat ensures MayCommit(s', n) <==> MayCommit(r, n) { CommitIsNoMatter(r, s', n); }
  }

  lemma CommitIsNoMatter(s: Server, s': Server, n: nat)
    requires s' == s.(commit := s'.commit)
    ensures MayCommit(s', n) <==> MayCommit(s, n)
  {
    assert Holders(s', n) == Holders(s, n);
  }

  // ---------------------------------------------------------------------
  // The commit index over runs
  // ---------------------------------------------------------------------

  /** A follower takes over the leader's commit index, but not beyond the end of its own log. */
  ghost predicate TookOver(n: Net, step: Step, c: nat, s': Server)
  {
    && step.Deliver? && step.packet < |n.inbox| && n.inbox[step.packet].dst == c && n.inbox[step.packet].msg.AppendEntries?
    && s'.commit == Min(n.inbox[step.packet].msg.leaderCommit, |s'.log|)
  }

  lemma FollowerCommits(pre: Prefixes, s: Server, m: Message)
    requires GoodLog(pre, s.log) && m.AppendEntries? && GoodMessage(pre, m)
    ensures var s' := OnAppend(s, m).0; s'.commit == s.commit || (s'.commit == Min(m.leaderCommit, |s'.log|) && m.leaderCommit > s.commit)
  {
    hide GoodLog, Merge, Consistent;
    AnswerLength(pre, s, m);
  }

  /** When a commit index moves, either its server is a leader that may commit there, or the server took it over
      from a leader; either way it ends within the log. */
  lemma CommitMoves(size: nat, states: seq<Net>, steps: seq<Step>, i: nat, c: nat)
    requires IsRun(size, states, steps) && i < |steps| && c < |states[i].servers| && c < |states[i + 1].servers|
    requires states[i + 1].servers[c].commit != states[i].servers[c].commit
    ensures var s' := states[i + 1].servers[c];
      s'.commit <= |s'.log| && ((s'.role == Leader && MayCommit(s', s'.commit)) || TookOver(states[i], steps[i], c, s'))
  {
    hide Explained, Extends, GoodLog, Ordered, GrantOk, CountOk, LeaderOk, TokenOk, PrefixOk, MayCommit, Apply, Handle, Committed, NextOk;
    var hs := RunIsSafe(size, states, steps);
    assert Enabled(states[i], steps[i]) && states[i + 1] == Apply(states[i], steps[i]);
    CommitStep(hs[i], states[i], steps[i], c);
    if MayCommit(states[i + 1].servers[c], states[i + 1].servers[c].commit) { MayCommitWithin(states[i + 1].servers[c]); }
  }

  lemma MayCommitWithin(s: Server)
    requires MayCommit(s, s.commit)
    ensures s.commit <= |s.log|
  {
  }

  lemma CommitStep(h: History, n: Net, step: Step, c: nat)
    requires Safe(n, h) && Enabled(n, step) && c < |n.servers| && c < |Apply(n, step).servers| && Apply(n, step).servers[c].commit != n.servers[c].commit
    ensures var s' := Apply(n, step).servers[c]; (s'.role == Leader && MayCommit(s', s'.commit)) || TookOver(n, step, c, s')
  {
    hide GoodLog, GrantOk, CountOk, LeaderOk, TokenOk, PrefixOk, MayCommit, Committed, NextOk, Merge, Consistent, SetPeers, Appends, VoteRequests, PacketOk, ServerOk, BuildAppend;
    match step
    case Deliver(k) =>
      var p := n.inbox[k];
      var s := n.servers[c];
      if p.msg.AppendEntries? { FollowerCommits(h.prefix, s, p.msg); }
      if p.msg.AppendEntriesReply? && s.role == Leader && p.msg.term == s.term && p.msg.success { SuccessCommits(h.prefix, s, p.src, p.msg); }
    case Propose(i, command) => ProposalCommits(h, n, i, command);
    case _ =>
  }

  lemma SuccessCommits(pre: Prefixes, s: Server, src: nat, m: Message)
    requires GoodLog(pre, s.log) && m.AppendEntriesReply? && m.success && m.term == s.term && s.role == Leader
    ensures var s' := OnAppendReply(s, src, m).0; s'.commit == s.commit || MayCommit(s', s'.commit)
  {
    hide GoodLog, Committed, MayCommit;
    var prior := if src in s.matchIndex then s.matchIndex[src] else 0;
    var r := s.(matchIndex := s.matchIndex[src := Max(prior, m.matchIndex)]);
    CommitsTheGreatest(pre, r);
    var s' := OnAppendReply(s, src, m).0;
    CommitIsNoMatter(r, s', s'.commit);
  }

  lemma ProposalCommits(h: History, n: Net, i: nat, command: seq<bv8>)
    requires Safe(n, h) && Enabled(n, Propose(i, command))
    ensures var s' := AppendLocal(n.servers[i], command); s'.commit == n.servers[i].commit || MayCommit(s', s'.commit)
  {
    hide GoodLog, Committed, MayCommit, Inv;
    var h' := ProposeStep(n, h, i, command);
    var s, s' := n.servers[i], AppendLocal(n.servers[i], command);
    assert GoodLog(h'.prefix, s'.log) by { assert Apply(n, Propose(i, command)).servers[i] == s'; }
    var r := s.(log := s.log + [Entry(s.term, LastIndex(s.log) + 1, command)]);
    CommitsTheGreatest(h'.prefix, r);
    CommitIsNoMatter(r, s', s'.commit);
  }
}
