/** Every step of the cluster keeps the election and log invariants, so both
    safety theorems hold in every state of every run. */
module RaftSafety {
  import opened Options
  import opened RaftModel
  import opened RaftElection
  import opened RaftLog

  ghost predicate Safe(n: Net, h: History)
  {
    Inv(n, h) && LogInv(n, h)
  }

  /** The past is never rewritten: terms won and entries created stay as they were. */
  ghost predicate Extends(h: History, h': History)
  {
    && (forall t :: t in h.leaders ==> t in h'.leaders && h'.leaders[t] == h.leaders[t])
    && (forall id :: id in h.prefix ==> id in h'.prefix && h'.prefix[id] == h.prefix[id])
  }

  /** The step puts a new entry, with these predecessors, into a leader's log. */
  ghost predicate Creates(n: Net, step: Step, id: EntryId, log: seq<Entry>)
  {
    && step.Propose? && step.server < |n.servers|
    && id == EntryId(n.servers[step.server].term, |n.servers[step.server].log| + 1)
    && log == Extended(n.servers[step.server], step.command)
  }

  /** Delivering packet k makes its receiver answer the request for its vote with yes. */
  ghost predicate SaysYes(n: Net, k: nat)
  {
    && k < |n.inbox| && n.inbox[k].dst < |n.servers| && n.inbox[k].msg.RequestVote?
    && OnRequestVote(n.servers[n.inbox[k].dst], n.inbox[k].msg).1 == [Send(n.inbox[k].msg.candidate, RequestVoteReply(n.inbox[k].msg.term, true))]
  }

  /** The step is the one in which the voter gives its vote to c: to itself when its timer fires, or on request. */
  ghost predicate Grants(n: Net, step: Step, slot: Slot, c: nat)
  {
    || (step == ElectionTimeout(slot.voter) && c == slot.voter)
    || (step.Deliver? && SaysYes(n, step.packet)
        && n.inbox[step.packet].dst == slot.voter && n.inbox[step.packet].src == c && n.inbox[step.packet].msg.term == slot.term)
  }

  /** The past is never rewritten, and everything new in the record comes from the step. */
  ghost predicate Explained(n: Net, h: History, step: Step, h': History)
  {
    && Extends(h, h')
    && (forall id :: id in h'.prefix ==> id in h.prefix || Creates(n, step, id, h'.prefix[id]))
    && (forall slot :: slot in h'.granted ==> (slot in h.granted && h'.granted[slot] == h.granted[slot]) || Grants(n, step, slot, h'.granted[slot]))
  }

  lemma InitIsSafe(size: nat)
    ensures Safe(Init(size), EMPTY_HISTORY)
  {
    var n := Init(size);
    forall i | 0 <= i < size ensures ServerOk(n, EMPTY_HISTORY, i) {}
  }

  // ---------------------------------------------------------------------
  // One step
  // ---------------------------------------------------------------------

  /** A delivery that changes one server quietly and sends token-free replies. */
  lemma QuietDelivery(n: Net, h: History, k: nat, s': Server, out: seq<Send>)
    requires Safe(n, h) && k < |n.inbox| && n.inbox[k].dst < |n.servers|
    requires QuietChange(n.servers[n.inbox[k].dst], s')
    requires GoodLog(h.prefix, s'.log) && OfficeKept(h, n.servers[n.inbox[k].dst], s')
    requires forall j :: 0 <= j < |out| ==>
      var p := Packet(n.inbox[k].dst, out[j].dst, out[j].msg);
      && PacketOk(n, h, p) && GoodMessage(h.prefix, p.msg)
      && !p.msg.RequestVote? && (p.msg.RequestVoteReply? ==> !p.msg.granted)
    ensures Safe(Net(n.servers[n.inbox[k].dst := s'], Without(n.inbox, k) + Pack(n.inbox[k].dst, out)), h)
  {
    hide GrantOk, CountOk, LeaderOk, TokenOk;
    var i := n.inbox[k].dst;
    var lost := n.(inbox := Without(n.inbox, k));
    LosePreserves(n, h, k);
    var ps := Pack(i, out);
    forall j | 0 <= j < |ps| ensures PacketOk(lost, h, ps[j]) {
      assert PacketOk(n, h, Packet(i, out[j].dst, out[j].msg));
    }
    SendPreserves(lost, h, ps);
    var sent := lost.(inbox := lost.inbox + ps);
    QuietPreserves(sent, h, i, s');
    var n' := Net(n.servers[i := s'], Without(n.inbox, k) + Pack(i, out));
    assert n' == sent.(servers := sent.servers[i := s']);
    DeliveryLogs(n, h, k, s', ps, h);
  }

  lemma DeliveryLogs(n: Net, h: History, k: nat, s': Server, ps: seq<Packet>, h': History)
    requires LogInv(n, h) && k < |n.inbox| && n.inbox[k].dst < |n.servers|
    requires GoodLog(h.prefix, s'.log) && OfficeKept(h, n.servers[n.inbox[k].dst], s')
    requires forall j :: 0 <= j < |ps| ==> GoodMessage(h.prefix, ps[j].msg)
    requires h'.prefix == h.prefix && forall t :: t in h.leaders ==> t in h'.leaders
    ensures LogInv(Net(n.servers[n.inbox[k].dst := s'], Without(n.inbox, k) + ps), h')
  {
    var n' := Net(n.servers[n.inbox[k].dst := s'], Without(n.inbox, k) + ps);
    var rest := Without(n.inbox, k);
    forall j | 0 <= j < |n'.inbox| ensures GoodMessage(h.prefix, n'.inbox[j].msg) {
      if j < |rest| {
        assert n'.inbox[j] == n.inbox[if j < k then j else j + 1];
      } else {
        assert n'.inbox[j] == ps[j - |rest|];
      }
    }
    NoEntryPreserves(n, h, n', h');
  }

  lemma RequestVoteStep(n: Net, h: History, k: nat) returns (h': History)
    requires Safe(n, h) && Enabled(n, Deliver(k)) && n.inbox[k].msg.RequestVote?
    ensures Safe(Apply(n, Deliver(k)), h') && Explained(n, h, Deliver(k), h')
  {
    hide GrantOk, CountOk, LeaderOk, TokenOk;
    var p := n.inbox[k];
    var s := n.servers[p.dst];
    assert PacketOk(n, h, p);
    assert ServerOk(n, h, p.dst);
    var (s', out) := OnRequestVote(s, p.msg);
    if out[0].msg.granted {
      h' := GrantStep(n, h, k);
    } else {
      h' := h;
      QuietDelivery(n, h, k, s', out);
    }
  }

  /** The vote is granted. */
  lemma GrantStep(n: Net, h: History, k: nat) returns (h': History)
    requires Enabled(n, Deliver(k)) && n.inbox[k].msg.RequestVote? && OnRequestVote(n.servers[n.inbox[k].dst], n.inbox[k].msg).1[0].msg.granted
    requires PacketOk(n, h, n.inbox[k]) && Safe(n, h)
    ensures Safe(Apply(n, Deliver(k)), h') && Explained(n, h, Deliver(k), h')
  {
    hide GrantOk, CountOk, LeaderOk, TokenOk, Inv;
    var p := n.inbox[k];
    var s := n.servers[p.dst];
    var d := StepDown(s, p.msg.term);
    var (s', out) := OnRequestVote(s, p.msg);
    var stepped := n.(servers := n.servers[p.dst := d]);
    QuietPreserves(n, h, p.dst, d);
    h' := GrantPreserves(stepped, h, k);
    DeliveryLogs(n, h, k, s', Pack(p.dst, out), h');
    assert Apply(n, Deliver(k)) == Granting(stepped, k);
  }

  lemma VoteReplyStep(n: Net, h: History, k: nat) returns (h': History)
    requires Safe(n, h) && Enabled(n, Deliver(k)) && n.inbox[k].msg.RequestVoteReply?
    ensures Safe(Apply(n, Deliver(k)), h') && Explained(n, h, Deliver(k), h')
  {
    hide GrantOk, CountOk, LeaderOk, TokenOk;
    var p := n.inbox[k];
    var s := n.servers[p.dst];
    assert ServerOk(n, h, p.dst);
    var (s', out) := OnVoteReply(s, p.msg);
    if s.role == Candidate && p.msg.term == s.term && p.msg.granted {
      var counted := Counting(n, k);
      h' := CountPreserves(n, h, k);
      if s.votes + 1 >= Quorum(s.size) {
        h' := WinStep(n, h, k, h');
      } else {
        DeliveryLogs(n, h, k, s', [], h');
        assert Apply(n, Deliver(k)) == counted;
      }
    } else {
      h' := h;
      QuietDelivery(n, h, k, s', out);
    }
  }

  /** The deciding vote: the winner takes office and announces itself. */
  lemma WinStep(n: Net, h: History, k: nat, h1: History) returns (h': History)
    requires Safe(n, h) && Enabled(n, Deliver(k)) && n.inbox[k].msg.RequestVoteReply? && n.inbox[k].msg.granted
    requires n.servers[n.inbox[k].dst].role == Candidate && n.servers[n.inbox[k].dst].term == n.inbox[k].msg.term
    requires n.servers[n.inbox[k].dst].votes + 1 >= Quorum(n.servers[n.inbox[k].dst].size)
    requires Inv(Counting(n, k), h1) && h1.prefix == h.prefix && h1.leaders == h.leaders && h1.granted == h.granted
    ensures Safe(Apply(n, Deliver(k)), h') && Explained(n, h, Deliver(k), h')
  {
    hide Inv, Appends, Pack, Apply;
    var i := n.inbox[k].dst;
    var counted := Counting(n, k);
    h' := ElectPreserves(counted, h1, i);
    var l := BecomeLeader(counted.servers[i]);
    assert counted.servers[i := l] == n.servers[i := l];
    TakesOffice(h, n.servers[i], counted.servers[i]);
    Announce(counted.(servers := counted.servers[i := l]), h', i);
    DeliveryLogs(n, h, k, l, Pack(i, Appends(l, 0)), h');
    Winning(n, k);
  }

  lemma TakesOffice(h: History, s: Server, c: Server)
    requires GoodLog(h.prefix, c.log) && c.term !in h.leaders
    ensures NextOk(BecomeLeader(c)) && OfficeKept(h, s, BecomeLeader(c))
  {
    GoodIsContiguous(h.prefix, c.log);
  }

  lemma Winning(n: Net, k: nat)
    requires Enabled(n, Deliver(k)) && n.inbox[k].msg.RequestVoteReply? && n.inbox[k].msg.granted
    requires n.servers[n.inbox[k].dst].role == Candidate && n.servers[n.inbox[k].dst].term == n.inbox[k].msg.term
    requires n.servers[n.inbox[k].dst].votes + 1 >= Quorum(n.servers[n.inbox[k].dst].size)
    ensures var i := n.inbox[k].dst;
      var l := BecomeLeader(Counting(n, k).servers[i]);
      Apply(n, Deliver(k)) == Net(n.servers[i := l], Without(n.inbox, k) + Pack(i, Appends(l, 0)))
  {
  }

  /** A leader's AppendEntries broadcast. */
  lemma Announce(n: Net, h: History, i: nat)
    requires Inv(n, h) && i < |n.servers| && n.servers[i].role == Leader
    requires GoodLog(h.prefix, n.servers[i].log) && NextOk(n.servers[i])
    ensures Inv(n.(inbox := n.inbox + Pack(i, Appends(n.servers[i], 0))), h)
    ensures forall j :: 0 <= j < |Appends(n.servers[i], 0)| ==>
      GoodMessage(h.prefix, Pack(i, Appends(n.servers[i], 0))[j].msg)
  {
    hide GrantOk, CountOk, LeaderOk, TokenOk;
    var ps := Pack(i, Appends(n.servers[i], 0));
    assert ServerOk(n, h, i);
    AppendsAreGood(h.prefix, n.servers[i], 0);
    forall j | 0 <= j < |ps| ensures PacketOk(n, h, ps[j]) {}
    SendPreserves(n, h, ps);
  }

  lemma AppendStep(n: Net, h: History, k: nat)
    requires Safe(n, h) && Enabled(n, Deliver(k)) && n.inbox[k].msg.AppendEntries?
    ensures Safe(Apply(n, Deliver(k)), h)
  {
    hide GrantOk, CountOk, LeaderOk, TokenOk;
    var p := n.inbox[k];
    var s := n.servers[p.dst];
    assert PacketOk(n, h, p);
    assert ServerOk(n, h, p.dst);
    FollowerSide(h.prefix, s, p.msg);
    var (s', out) := OnAppend(s, p.msg);
    assert OfficeKept(h, s, s') by {
      if s'.role == Leader { assert s' == s && NextOk(s); }
    }
    QuietDelivery(n, h, k, s', out);
  }

  /** A server that receives an AppendEntries is not the leader of that term, so
      no leader's log is ever cut. */
  lemma FollowerSide(pre: Prefixes, s: Server, m: Message)
    requires GoodLog(pre, s.log) && m.AppendEntries? && GoodMessage(pre, m)
    ensures QuietChange(s, OnAppend(s, m).0) && GoodLog(pre, OnAppend(s, m).0.log)
    ensures s.role == Leader && OnAppend(s, m).0.role == Leader && m.term != s.term ==> OnAppend(s, m).0 == s
    ensures OnAppend(s, m).0.role == Leader ==> s.role == Leader
    ensures |OnAppend(s, m).1| == 1 && OnAppend(s, m).1[0].dst == m.leader && OnAppend(s, m).1[0].msg.AppendEntriesReply?
  {
    if Consistent(s.log, m.prevIndex, m.prevTerm) { AppendReplicates(pre, s.log, m); }
  }

  lemma AppendReplyStep(n: Net, h: History, k: nat)
    requires Safe(n, h) && Enabled(n, Deliver(k)) && n.inbox[k].msg.AppendEntriesReply?
    ensures Safe(Apply(n, Deliver(k)), h)
  {
    hide GrantOk, CountOk, LeaderOk, TokenOk;
    var p := n.inbox[k];
    var s := n.servers[p.dst];
    assert PacketOk(n, h, p);
    assert ServerOk(n, h, p.dst);
    var (s', out) := OnAppendReply(s, p.src, p.msg);
    if s.role == Leader { assert NextOk(s); }
    if out != [] {
      BuildAppendIsGood(h.prefix, s', p.src);
    }
    QuietDelivery(n, h, k, s', out);
  }

  lemma TimeoutStep(n: Net, h: History, i: nat) returns (h': History)
    requires Safe(n, h) && Enabled(n, ElectionTimeout(i))
    ensures Safe(Apply(n, ElectionTimeout(i)), h') && Explained(n, h, ElectionTimeout(i), h')
  {
    hide Inv, Apply, VoteRequests, Pack;
    h' := StandPreserves(n, h, i);
    var standing := Standing(n, i);
    var c := Stand(n.servers[i]);
    Firing(n, i);
    if 1 >= Quorum(c.size) {
      h' := ElectPreserves(standing, h', i);
      assert standing.servers[i := BecomeLeader(c)] == n.servers[i := BecomeLeader(c)];
      TakesOffice(h, n.servers[i], c);
      TimeoutLogs(n, h, i, BecomeLeader(c), h');
    } else {
      assert standing.servers == n.servers[i := c];
      TimeoutLogs(n, h, i, c, h');
    }
  }

  lemma Firing(n: Net, i: nat)
    requires Enabled(n, ElectionTimeout(i))
    ensures var c := Stand(n.servers[i]);
      Apply(n, ElectionTimeout(i)) ==
      Standing(n, i).(servers := n.servers[i := if 1 >= Quorum(c.size) then BecomeLeader(c) else c])
  {
  }

  lemma TimeoutLogs(n: Net, h: History, i: nat, s': Server, h': History)
    requires LogInv(n, h) && i < |n.servers| && s'.log == n.servers[i].log && OfficeKept(h, n.servers[i], s')
    requires h'.prefix == h.prefix && forall t :: t in h.leaders ==> t in h'.leaders
    ensures LogInv(Standing(n, i).(servers := n.servers[i := s']), h')
  {
    var n' := Standing(n, i).(servers := n.servers[i := s']);
    VoteRequestsShape(Stand(n.servers[i]), 0);
    forall k | 0 <= k < |n'.inbox| ensures GoodMessage(h.prefix, n'.inbox[k].msg) {
      if k < |n.inbox| { assert n'.inbox[k] == n.inbox[k]; }
    }
    NoEntryPreserves(n, h, n', h');
  }

  lemma HeartbeatStep(n: Net, h: History, i: nat)
    requires Safe(n, h) && Enabled(n, Heartbeat(i))
    ensures Safe(Apply(n, Heartbeat(i)), h)
  {
    Announce(n, h, i);
    var n' := Apply(n, Heartbeat(i));
    forall k | 0 <= k < |n'.inbox| ensures GoodMessage(h.prefix, n'.inbox[k].msg) {
      if k < |n.inbox| { assert n'.inbox[k] == n.inbox[k]; }
    }
    NoEntryPreserves(n, h, n', h);
  }

  lemma ProposeStep(n: Net, h: History, i: nat, command: seq<bv8>) returns (h': History)
    requires Safe(n, h) && Enabled(n, Propose(i, command))
    ensures Safe(Apply(n, Propose(i, command)), h') && Explained(n, h, Propose(i, command), h')
  {
    hide GrantOk, CountOk, LeaderOk, TokenOk;
    assert ServerOk(n, h, i);
    forall j | 0 <= j < |n.servers| && j != i && n.servers[j].role == Leader
      ensures n.servers[j].term != n.servers[i].term
    {
      assert ServerOk(n, h, j);
    }
    h' := ProposePreserves(n, h, i, command);
    QuietPreserves(n, h, i, AppendLocal(n.servers[i], command));
    InvIgnoresPrefixes(Apply(n, Propose(i, command)), h, h');
  }

  lemma InvIgnoresPrefixes(n: Net, h: History, h': History)
    requires Inv(n, h) && h' == h.(prefix := h'.prefix)
    ensures Inv(n, h')
  {
    forall j | 0 <= j < |n.servers| ensures ServerOk(n, h', j) { assert ServerOk(n, h, j); }
    forall k | 0 <= k < |n.inbox| ensures PacketOk(n, h', n.inbox[k]) { assert PacketOk(n, h, n.inbox[k]); }
    forall v, c, t ensures TokenOk(n, h', v, c, t) { assert TokenOk(n, h, v, c, t); }
    forall slot | slot in h'.granted ensures GrantOk(n, h', slot) { assert GrantOk(n, h, slot); }
    forall b | b in h'.counted ensures CountOk(n, h', b) { assert CountOk(n, h, b); }
    forall u | u in h'.leaders ensures LeaderOk(n, h', u) { assert LeaderOk(n, h, u); }
  }

  /** Every step the cluster can take keeps both invariants. */
  lemma StepPreserves(n: Net, h: History, step: Step) returns (h': History)
    requires Safe(n, h) && Enabled(n, step)
    ensures Safe(Apply(n, step), h') && Explained(n, h, step, h')
  {
    match step
    case ElectionTimeout(i) => h' := TimeoutStep(n, h, i);
    case Heartbeat(i) => HeartbeatStep(n, h, i); h' := h;
    case Propose(i, command) => h' := ProposeStep(n, h, i, command);
    case Lose(k) =>
      LosePreserves(n, h, k);
      h' := h;
      NoEntryPreserves(n, h, Apply(n, step), h);
    case Deliver(k) =>
      match n.inbox[k].msg {
        case RequestVote(_, _, _, _) => h' := RequestVoteStep(n, h, k);
        case RequestVoteReply(_, _) => h' := VoteReplyStep(n, h, k);
        case AppendEntries(_, _, _, _, _, _) => AppendStep(n, h, k); h' := h;
        case AppendEntriesReply(_, _, _) => AppendReplyStep(n, h, k); h' := h;
      }
  }

  // ---------------------------------------------------------------------
  // Whole runs
  // ---------------------------------------------------------------------

  /** The invariants hold all along a run, with one ever-growing history. */
  lemma {:induction false} RunIsSafe(size: nat, states: seq<Net>, steps: seq<Step>) returns (hs: seq<History>)
    requires IsRun(size, states, steps)
    ensures |hs| == |states|
    ensures forall i :: 0 <= i < |hs| ==> Safe(states[i], hs[i])
    ensures forall i, j :: 0 <= i <= j < |hs| ==> Extends(hs[i], hs[j])
    ensures forall i :: 0 <= i < |steps| ==> Explained(states[i], hs[i], steps[i], hs[i + 1])
    ensures hs[0] == EMPTY_HISTORY
    decreases |steps|
  {
    hide Safe, Apply, Enabled, Extends, Explained;
    if steps == [] {
      InitIsSafe(size);
      hs := [EMPTY_HISTORY];
      ExtendsTrans(EMPTY_HISTORY, EMPTY_HISTORY, EMPTY_HISTORY);
    } else {
      var m := |steps| - 1;
      hs := RunIsSafe(size, states[..m + 1], steps[..m]);
      assert Enabled(states[m], steps[m]) && states[m + 1] == Apply(states[m], steps[m]);
      assert states[..m + 1][m] == states[m];
      var h := StepPreserves(states[m], hs[m], steps[m]);
      ExplainedExtends(states[m], hs[m], steps[m], h);
      ExtendsTrans(h, h, h);
      forall i | 0 <= i <= m ensures Extends(hs[i], h) { ExtendsTrans(hs[i], hs[m], h); }
      hs := hs + [h];
    }
  }

  lemma ExplainedExtends(n: Net, h: History, step: Step, h': History)
    requires Explained(n, h, step, h')
    ensures Extends(h, h')
  {
  }

  lemma ExtendsTrans(a: History, b: History, c: History)
    ensures Extends(a, a) && (Extends(a, b) && Extends(b, c) ==> Extends(a, c))
  {
  }

  /** Election safety: over a whole run, at most one server is ever leader in a term. */
  lemma ElectionSafety(size: nat, states: seq<Net>, steps: seq<Step>, i: nat, j: nat, a: nat, b: nat)
    requires IsRun(size, states, steps) && i < |states| && j < |states|
    requires a < |states[i].servers| && b < |states[j].servers|
    requires states[i].servers[a].role == Leader && states[j].servers[b].role == Leader
    requires states[i].servers[a].term == states[j].servers[b].term
    ensures a == b
  {
    var hs := RunIsSafe(size, states, steps);
    assert ServerOk(states[i], hs[i], a) && ServerOk(states[j], hs[j], b);
    assert Extends(hs[i], hs[j]) || Extends(hs[j], hs[i]);
  }

  /** Log matching, even between different moments of a run: an entry with the
      same index and term is preceded by the same log everywhere. */
  lemma LogMatching(size: nat, states: seq<Net>, steps: seq<Step>, i: nat, j: nat, a: nat, b: nat, x: nat, y: nat)
    requires IsRun(size, states, steps) && i < |states| && j < |states|
    requires a < |states[i].servers| && b < |states[j].servers|
    requires x < |states[i].servers[a].log| && y < |states[j].servers[b].log|
    requires states[i].servers[a].log[x].index == states[j].servers[b].log[y].index
    requires states[i].servers[a].log[x].term == states[j].servers[b].log[y].term
    ensures x == y && states[i].servers[a].log[..x + 1] == states[j].servers[b].log[..y + 1]
  {
    var hs := RunIsSafe(size, states, steps);
    assert GoodAt(hs[i].prefix, states[i].servers[a].log, x);
    assert GoodAt(hs[j].prefix, states[j].servers[b].log, y);
    assert Extends(hs[i], hs[j]) || Extends(hs[j], hs[i]);
  }

  // ---------------------------------------------------------------------
  // Replication is exact
  // ---------------------------------------------------------------------

  /** Was this AppendEntries cut from the log its sender, a leader, holds now? */
  ghost predicate CutFrom(n: Net, p: Packet)
  {
    && p.src < |n.servers| && n.servers[p.src].role == Leader
    && BuildAppend(n.servers[p.src], p.dst) == Some(p.msg)
  }

  lemma {:induction false} AppendsAreCut(s: Server, from: nat)
    ensures forall k :: 0 <= k < |Appends(s, from)| ==> BuildAppend(s, Appends(s, from)[k].dst) == Some(Appends(s, from)[k].msg)
    decreases s.size - from
  {
    if from < s.size { AppendsAreCut(s, from + 1); }
  }

  lemma HandlerCuts(s: Server, src: nat, m: Message)
    ensures var (s', out) := Handle(s, src, m);
      forall k :: 0 <= k < |out| && out[k].msg.AppendEntries? ==>
        s'.role == Leader && BuildAppend(s', out[k].dst) == Some(out[k].msg)
  {
    if m.RequestVoteReply? && Handle(s, src, m).1 != [] { AppendsAreCut(Handle(s, src, m).0, 0); }
  }

  /** Every AppendEntries after a step was there before or is cut from its sender's log. */
  lemma StepCuts(n: Net, step: Step, p: Packet)
    requires Enabled(n, step) && p in Apply(n, step).inbox && p.msg.AppendEntries?
    ensures p in n.inbox || CutFrom(Apply(n, step), p)
  {
    match step
    case ElectionTimeout(i) => VoteRequestsShape(Stand(n.servers[i]), 0);
    case Heartbeat(i) => AppendsAreCut(n.servers[i], 0);
    case Deliver(k) => HandlerCuts(n.servers[n.inbox[k].dst], n.inbox[k].src, n.inbox[k].msg);
    case Lose(k) =>
    case Propose(i, command) =>
  }

  lemma {:induction false} Origin(size: nat, states: seq<Net>, steps: seq<Step>, i: nat, p: Packet) returns (o: nat)
    requires IsRun(size, states, steps) && i < |states| && p in states[i].inbox && p.msg.AppendEntries?
    ensures o <= i && CutFrom(states[o], p)
    decreases i
  {
    if i > 0 {
      assert Enabled(states[i - 1], steps[i - 1]) && states[i] == Apply(states[i - 1], steps[i - 1]);
      StepCuts(states[i - 1], steps[i - 1], p);
      if p in states[i - 1].inbox { o := Origin(size, states, steps, i - 1, p); } else { o := i; }
    }
  }

  /** An AppendEntries that passes the follower's checks leaves the follower with
      exactly the log the leader held when it sent it, through its last entry. */
  lemma ReplicationIsExact(size: nat, states: seq<Net>, steps: seq<Step>, i: nat, k: nat) returns (o: nat)
    requires IsRun(size, states, steps) && i < |steps| && steps[i] == Deliver(k)
    requires k < |states[i].inbox| && states[i].inbox[k].msg.AppendEntries? && states[i].inbox[k].dst < |states[i].servers|
    requires var p := states[i].inbox[k];
      p.msg.term >= states[i].servers[p.dst].term &&
      Consistent(states[i].servers[p.dst].log, p.msg.prevIndex, p.msg.prevTerm)
    ensures o <= i && states[i].inbox[k].src < |states[o].servers| && states[i].inbox[k].dst < |states[i + 1].servers|
    ensures var p := states[i].inbox[k];
      var leader := states[o].servers[p.src];
      var log := states[i + 1].servers[p.dst].log;
      && leader.role == Leader && leader.term == p.msg.term
      && |leader.log| == p.msg.prevIndex + |p.msg.entries| <= |log| && log[..|leader.log|] == leader.log
  {
    var p := states[i].inbox[k];
    o := Origin(size, states, steps, i, p);
    var hs := RunIsSafe(size, states, steps);
    var leader := states[o].servers[p.src];
    assert ServerOk(states[o], hs[o], p.src);
    assert PacketOk(states[i], hs[i], p);
    assert |states[o].servers| == |states[i].servers| by { SameServers(size, states, steps, o); SameServers(size, states, steps, i); }
    assert NextOk(leader);
    BuildAppendIsGood(hs[o].prefix, leader, p.dst);
    assert Extends(hs[o], hs[i]);
    GoodMessageGrows(hs[o].prefix, hs[i].prefix, p.msg);
    assert states[i + 1] == Apply(states[i], Deliver(k));
    FollowerHolds(hs[i].prefix, states[i], k);
  }

  lemma FollowerHolds(pre: Prefixes, n: Net, k: nat)
    requires Enabled(n, Deliver(k)) && n.inbox[k].msg.AppendEntries?
    requires GoodLog(pre, n.servers[n.inbox[k].dst].log) && GoodMessage(pre, n.inbox[k].msg)
    requires n.inbox[k].msg.term >= n.servers[n.inbox[k].dst].term
    requires Consistent(n.servers[n.inbox[k].dst].log, n.inbox[k].msg.prevIndex, n.inbox[k].msg.prevTerm)
    ensures var sent := SentLog(pre, n.inbox[k].msg);
      var log := Apply(n, Deliver(k)).servers[n.inbox[k].dst].log;
      |sent| <= |log| && log[..|sent|] == sent
  {
    AppendReplicates(pre, n.servers[n.inbox[k].dst].log, n.inbox[k].msg);
  }

  lemma {:induction false} SameServers(size: nat, states: seq<Net>, steps: seq<Step>, i: nat)
    requires IsRun(size, states, steps) && i < |states|
    ensures |states[i].servers| == size
    decreases i
  {
    if i > 0 {
      SameServers(size, states, steps, i - 1);
      assert Enabled(states[i - 1], steps[i - 1]) && states[i] == Apply(states[i - 1], steps[i - 1]);
    }
  }
}
