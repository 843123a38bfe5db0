/** The servers and the network as objects updated in place.  Each method is
    proved to perform the transitions of RaftModel, so a network object is
    always in a state of some run and both safety theorems apply to it. */
module RaftNetwork {
  import opened Options
  import opened RaftModel
  import opened RaftElection
  import opened RaftLog
  import opened RaftSafety

  class Node {
    const selfId: nat
    const clusterSize: nat
    var role: Role
    var currentTerm: nat
    var votedFor: Option<nat>
    var votesReceived: nat
    var log: seq<Entry>
    var commitIndex: nat
    var nextIndex: map<nat, nat>
    var matchIndex: map<nat, nat>
    var electionTimeoutIn: nat
    var electionTimeout: nat
    var heartbeatDueIn: nat

    ghost function State(): Server
      reads this
    {
      Server(selfId, clusterSize, role, currentTerm, votedFor, votesReceived, log, commitIndex, nextIndex, matchIndex)
    }

    constructor (id: nat, size: nat)
      ensures State() == InitServer(id, size)
      ensures electionTimeoutIn == electionTimeout == 150 + (id * 37) % 50 && heartbeatDueIn == 0
    {
      var next: map<nat, nat>, matched: map<nat, nat> := map[], map[];
      for peer := 0 to size
        invariant SetPeers(next, id, size, 1, peer) == SetPeers(map[], id, size, 1, 0)
        invariant SetPeers(matched, id, size, 0, peer) == SetPeers(map[], id, size, 0, 0)
      {
        if peer != id {
          next := next[peer := 1];
          matched := matched[peer := 0];
        }
      }
      selfId, clusterSize := id, size;
      role, currentTerm, votedFor, votesReceived := Follower, 0, None, 0;
      log, commitIndex := [], 0;
      nextIndex, matchIndex := next, matched;
      electionTimeoutIn, electionTimeout := 150 + (id * 37) % 50, 150 + (id * 37) % 50;
      heartbeatDueIn := 0;
    }

    /** Does the running timer expire within `elapsed`? */
    predicate Due(elapsed: nat)
      reads this
    {
      (if role == Leader then heartbeatDueIn else electionTimeoutIn) <= elapsed
    }

    /** Advance logical time; `draw` stands for the random part of a fresh timeout. */
    method Tick(elapsed: nat, draw: nat) returns (out: seq<Send>)
      modifies this
      ensures !old(Due(elapsed)) ==> State() == old(State()) && out == []
      ensures old(Due(elapsed)) && old(role) != Leader ==> (State(), out) == Timeout(old(State()))
      ensures old(Due(elapsed)) && old(role) == Leader ==> State() == old(State()) && out == Appends(old(State()), 0)
      ensures old(role) == Leader ==> electionTimeoutIn == old(electionTimeoutIn)
      ensures old(role) == Leader ==> heartbeatDueIn == if old(Due(elapsed)) then 50 else old(heartbeatDueIn) - elapsed
      ensures old(role) != Leader && old(Due(elapsed)) ==> electionTimeoutIn == electionTimeout == 150 + draw % 75
      ensures old(role) != Leader && !old(Due(elapsed)) ==> electionTimeoutIn == old(electionTimeoutIn) - elapsed
    {
      hide VoteRequests, Appends;
      out := [];
      if role != Leader {
        electionTimeoutIn := if electionTimeoutIn <= elapsed then 0 else electionTimeoutIn - elapsed;
        if electionTimeoutIn == 0 {
          role := Candidate;
          currentTerm := currentTerm + 1;
          votedFor := Some(selfId);
          votesReceived := 1;
          electionTimeout := 150 + draw % 75;
          electionTimeoutIn := electionTimeout;
          out := RequestVotes();
          if votesReceived >= Quorum(clusterSize) {
            TakeOffice();
          }
        }
      } else {
        heartbeatDueIn := if heartbeatDueIn <= elapsed then 0 else heartbeatDueIn - elapsed;
        if heartbeatDueIn == 0 {
          heartbeatDueIn := 50;
          out := AppendToAll();
        }
      }
    }

    method RequestVotes() returns (out: seq<Send>)
      ensures out == VoteRequests(State(), 0)
    {
      out := [];
      for peer := 0 to clusterSize
        invariant out + VoteRequests(State(), peer) == VoteRequests(State(), 0)
      {
        if peer != selfId {
          out := out + [Send(peer, RequestVote(currentTerm, selfId, LastIndex(log), LastTerm(log)))];
        }
      }
    }

    method AppendToAll() returns (out: seq<Send>)
      ensures out == Appends(State(), 0)
    {
      out := [];
      for peer := 0 to clusterSize
        invariant out + Appends(State(), peer) == Appends(State(), 0)
      {
        if peer != selfId {
          var msg := AppendFor(peer);
          if msg.Some? { out := out + [Send(peer, msg.value)]; }
        }
      }
    }

    method AppendFor(peer: nat) returns (msg: Option<Message>)
      ensures msg == BuildAppend(State(), peer)
    {
      var next := if peer in nextIndex then nextIndex[peer] else 1;
      if next == 0 { return None; }
      msg := Some(AppendEntries(currentTerm, selfId, next - 1, TermAt(log, next - 1), EntriesFrom(log, next), commitIndex));
    }

    method TakeOffice()
      modifies this
      ensures State() == BecomeLeader(old(State())) && heartbeatDueIn == 0
      ensures electionTimeoutIn == old(electionTimeoutIn) && electionTimeout == old(electionTimeout)
    {
      role := Leader;
      heartbeatDueIn := 0;
      var last := LastIndex(log);
      for peer := 0 to clusterSize
        invariant State() == old(State()).(role := Leader, nextIndex := nextIndex, matchIndex := matchIndex)
        invariant heartbeatDueIn == 0 && electionTimeoutIn == old(electionTimeoutIn) && electionTimeout == old(electionTimeout)
        invariant SetPeers(nextIndex, selfId, clusterSize, last + 1, peer) == SetPeers(old(nextIndex), selfId, clusterSize, last + 1, 0)
        invariant SetPeers(matchIndex, selfId, clusterSize, 0, peer) == SetPeers(old(matchIndex), selfId, clusterSize, 0, 0)
      {
        if peer != selfId {
          nextIndex := nextIndex[peer := last + 1];
          matchIndex := matchIndex[peer := 0];
        }
      }
    }

    method BecomeFollower(term: nat) returns (stepped: bool)
      modifies this
      ensures State() == StepDown(old(State()), term)
      ensures stepped == (term > old(currentTerm))
      ensures electionTimeoutIn == if stepped then electionTimeout else old(electionTimeoutIn)
    {
      stepped := term > currentTerm;
      if stepped {
        currentTerm := term;
        votedFor := None;
        role := Follower;
        votesReceived := 0;
        electionTimeoutIn := electionTimeout;
      }
    }

    method HandleRequestVote(m: Message) returns (replies: seq<Send>)
      requires m.RequestVote?
      modifies this
      ensures (State(), replies) == OnRequestVote(old(State()), m)
    {
      if m.term < currentTerm {
        return [Send(m.candidate, RequestVoteReply(currentTerm, false))];
      }
      var _ := BecomeFollower(m.term);
      var upToDate := m.lastLogTerm > LastTerm(log) || (m.lastLogTerm == LastTerm(log) && m.lastLogIndex >= LastIndex(log));
      var canVote := votedFor.None? || votedFor == Some(m.candidate);
      if canVote && upToDate {
        votedFor := Some(m.candidate);
        electionTimeoutIn := electionTimeout;
      }
      replies := [Send(m.candidate, RequestVoteReply(currentTerm, canVote && upToDate))];
    }

    method HandleVoteReply(m: Message) returns (replies: seq<Send>)
      requires m.RequestVoteReply?
      modifies this
      ensures (State(), replies) == OnVoteReply(old(State()), m)
    {
      replies := [];
      if role != Candidate || m.term > currentTerm {
        var _ := BecomeFollower(m.term);
      } else if m.term == currentTerm && m.granted {
        votesReceived := votesReceived + 1;
        if votesReceived >= Quorum(clusterSize) {
          TakeOffice();
          replies := AppendToAll();
        }
      }
    }

    method HandleAppend(m: Message) returns (replies: seq<Send>)
      requires m.AppendEntries?
      modifies this
      ensures (State(), replies) == OnAppend(old(State()), m)
    {
      if m.term < currentTerm {
        return [Send(m.leader, AppendEntriesReply(currentTerm, false, LastIndex(log)))];
      }
      var _ := BecomeFollower(m.term);
      if role == Candidate { role := Follower; }
      electionTimeoutIn := electionTimeout;
      if !Consistent(log, m.prevIndex, m.prevTerm) {
        return [Send(m.leader, AppendEntriesReply(currentTerm, false, LastIndex(log)))];
      }
      MergeEntries(m.entries);
      if m.leaderCommit > commitIndex {
        commitIndex := Min(m.leaderCommit, LastIndex(log));
      }
      replies := [Send(m.leader, AppendEntriesReply(currentTerm, true, LastIndex(log)))];
    }

    method MergeEntries(es: seq<Entry>)
      modifies this`log
      ensures log == Merge(old(log), es)
    {
      for i := 0 to |es|
        invariant Merge(log, es[i..]) == Merge(old(log), es)
      {
        var entry := es[i];
        assert es[i..] == [entry] + es[i + 1..];
        match Position(log, entry.index, 0)
        case Some(pos) =>
          if log[pos].term != entry.term {
            log := log[..pos] + [entry];
          }
        case None =>
          if entry.index == LastIndex(log) + 1 {
            log := log + [entry];
          }
      }
    }

    method HandleAppendReply(src: nat, m: Message) returns (replies: seq<Send>)
      requires m.AppendEntriesReply?
      modifies this
      ensures (State(), replies) == OnAppendReply(old(State()), src, m)
    {
      replies := [];
      if role != Leader || m.term > currentTerm {
        var _ := BecomeFollower(m.term);
      } else if m.term == currentTerm {
        if m.success {
          var prior := if src in matchIndex then matchIndex[src] else 0;
          matchIndex := matchIndex[src := Max(prior, m.matchIndex)];
          AdvanceCommitIndex();
        } else {
          var prior := if src in nextIndex then nextIndex[src] else 1;
          nextIndex := nextIndex[src := Max(prior, 1) - 1];
          var msg := AppendFor(src);
          if msg.Some? { replies := [Send(src, msg.value)]; }
        }
      }
    }

    method AdvanceCommitIndex()
      modifies this`commitIndex
      ensures State() == AdvanceCommit(old(State()))
    {
      var last := LastIndex(log);
      var committed := commitIndex;
      var n := commitIndex + 1;
      while n <= last
        invariant commitIndex + 1 <= n && (n <= last + 1 || n == commitIndex + 1)
        invariant committed == Committed(State(), n - 1)
      {
        if TermAt(log, n) == currentTerm {
          var replicas := 1 + |set p | p in matchIndex && matchIndex[p] >= n|;
          if replicas >= Quorum(clusterSize) {
            committed := n;
          }
        }
        n := n + 1;
      }
      commitIndex := committed;
    }

    method HandleMessage(src: nat, m: Message) returns (replies: seq<Send>)
      modifies this
      ensures (State(), replies) == Handle(old(State()), src, m)
    {
      match m
      case RequestVote(_, _, _, _) => replies := HandleRequestVote(m);
      case RequestVoteReply(_, _) => replies := HandleVoteReply(m);
      case AppendEntries(_, _, _, _, _, _) => replies := HandleAppend(m);
      case AppendEntriesReply(_, _, _) => replies := HandleAppendReply(src, m);
    }

    method AppendCommand(command: seq<bv8>)
      modifies this
      ensures State() == AppendLocal(old(State()), command)
      ensures heartbeatDueIn == old(heartbeatDueIn)
    {
      log := log + [Entry(currentTerm, LastIndex(log) + 1, command)];
      AdvanceCommitIndex();
    }
  }

  // ---------------------------------------------------------------------
  // The cluster object
  // ---------------------------------------------------------------------

  /** Taking `steps` one after the other leads from n to n'. */
  ghost predicate RunsTo(n: Net, steps: seq<Step>, n': Net)
    decreases |steps|
  {
    if steps == [] then n == n' else Enabled(n, steps[0]) && RunsTo(Apply(n, steps[0]), steps[1..], n')
  }

  lemma {:induction false} RunsToConcat(a: Net, s: seq<Step>, b: Net, t: seq<Step>, c: Net)
    requires RunsTo(a, s, b) && RunsTo(b, t, c)
    ensures RunsTo(a, s + t, c)
    decreases |s|
  {
    hide Apply, Enabled;
    if s == [] {
      assert s + t == t;
    } else {
      RunsToConcat(Apply(a, s[0]), s[1..], b, t, c);
      assert (s + t)[1..] == s[1..] + t;
    }
  }

  lemma RunsNowhere(a: Net)
    ensures RunsTo(a, [], a)
  {
  }

  /** The first packet still to be sent: accepted or lost, the others follow. */
  lemma FirstInFlight(front: seq<Packet>, inbox: seq<Packet>, src: nat, sends: seq<Send>, i: nat)
    requires i < |sends|
    ensures var packet, rest, flight := Packet(src, sends[i].dst, sends[i].msg), Pack(src, sends[i + 1..]), front + inbox + Pack(src, sends[i..]);
      && flight == front + (inbox + [packet]) + rest
      && |front + inbox| < |flight| && Without(flight, |front + inbox|) == front + inbox + rest
  {
    assert Pack(src, sends[i..]) == [Packet(src, sends[i].dst, sends[i].msg)] + Pack(src, sends[i + 1..]);
  }

  lemma NoneInFlight(src: nat, sends: seq<Send>)
    ensures Pack(src, sends[|sends|..]) == []
  {
  }

  lemma RunsToStep(a: Net, s: seq<Step>, b: Net, step: Step)
    requires RunsTo(a, s, b) && Enabled(b, step)
    ensures RunsTo(a, s + [step], Apply(b, step))
  {
    assert RunsTo(Apply(b, step), [step][1..], Apply(b, step));
    RunsToConcat(a, s, b, [step], Apply(b, step));
  }

  /** The states a sequence of steps passes through. */
  lemma {:induction false} StatesOf(a: Net, steps: seq<Step>, b: Net) returns (states: seq<Net>)
    requires RunsTo(a, steps, b)
    ensures |states| == |steps| + 1 && states[0] == a && states[|steps|] == b
    ensures forall i :: 0 <= i < |steps| ==> Enabled(states[i], steps[i]) && states[i + 1] == Apply(states[i], steps[i])
    decreases |steps|
  {
    if steps == [] {
      states := [a];
    } else {
      var rest := StatesOf(Apply(a, steps[0]), steps[1..], b);
      states := [a] + rest;
      forall i | 0 <= i < |steps| ensures Enabled(states[i], steps[i]) && states[i + 1] == Apply(states[i], steps[i]) {
        if i > 0 {
          assert steps[i] == steps[1..][i - 1];
          assert Enabled(rest[i - 1], steps[1..][i - 1]);
        }
      }
    }
  }

  lemma ReachableIsSafe(size: nat, steps: seq<Step>, n: Net) returns (h: History)
    requires RunsTo(Init(size), steps, n)
    ensures Safe(n, h)
  {
    var states := StatesOf(Init(size), steps, n);
    var hs := RunIsSafe(size, states, steps);
    h := hs[|steps|];
  }

  /** A server after a tick, given whether its timer ran out. */
  function Ticked(s: Server, due: bool): Server
  {
    if due && s.role != Leader then Timeout(s).0 else s
  }

  /** How many packets a sequence of steps delivers. */
  ghost function Deliveries(steps: seq<Step>): nat
  {
    if steps == [] then 0 else Deliveries(steps[..|steps| - 1]) + if steps[|steps| - 1].Deliver? then 1 else 0
  }

  lemma {:induction false} LossesDeliverNothing(steps: seq<Step>, lost: seq<Step>)
    requires forall i :: 0 <= i < |lost| ==> lost[i].Lose?
    ensures Deliveries(steps + lost) == Deliveries(steps)
    decreases |lost|
  {
    if lost == [] {
      assert steps + lost == steps;
    } else {
      assert (steps + lost)[..|steps + lost| - 1] == steps + lost[..|lost| - 1];
      LossesDeliverNothing(steps, lost[..|lost| - 1]);
    }
  }

  class Network {
    var nodes: seq<Node>
    var inbox: seq<Packet>
    ghost var trace: seq<Step>

    ghost function Abs(): Net
      reads this, nodes
    {
      Net(seq(|nodes|, i requires 0 <= i < |nodes| reads this, nodes => nodes[i].State()), inbox)
    }

    ghost predicate Valid()
      reads this, nodes
    {
      && (forall i, j :: 0 <= i < j < |nodes| ==> nodes[i] != nodes[j])
      && RunsTo(Init(|nodes|), trace, Abs())
    }

    constructor (size: nat)
      ensures Valid() && Abs() == Init(size) && fresh(nodes)
    {
      var ns: seq<Node> := [];
      for id := 0 to size
        invariant |ns| == id && fresh(ns)
        invariant forall i, j :: 0 <= i < j < id ==> ns[i] != ns[j]
        invariant forall i :: 0 <= i < id ==> ns[i].State() == InitServer(i, size)
      {
        var node := new Node(id, size);
        ns := ns + [node];
      }
      nodes, inbox, trace := ns, [], [];
    }

    /** Hand packets to the network, which may lose any of them.  The packets in
        `front` are in flight ahead of the inbox. */
    method SendAll(src: nat, sends: seq<Send>, ghost servers: seq<Server>, ghost front: seq<Packet>) returns (ghost lost: seq<Step>)
      modifies this`inbox
      ensures RunsTo(Net(servers, front + old(inbox) + Pack(src, sends)), lost, Net(servers, front + inbox))
      ensures forall i :: 0 <= i < |lost| ==> lost[i].Lose?
    {
      hide RunsTo, Pack, Without;
      lost := [];
      ghost var all := Net(servers, front + inbox + Pack(src, sends));
      RunsNowhere(all);
      assert sends[0..] == sends;
      for i := 0 to |sends|
        invariant RunsTo(all, lost, Net(servers, front + inbox + Pack(src, sends[i..])))
        invariant forall j :: 0 <= j < |lost| ==> lost[j].Lose?
      {
        var packet := Packet(src, sends[i].dst, sends[i].msg);
        var keep: bool := *;
        ghost var flight := front + inbox + Pack(src, sends[i..]);
        FirstInFlight(front, inbox, src, sends, i);
        if keep {
          inbox := inbox + [packet];
        } else {
          ghost var k := |front + inbox|;
          RunsToStep(all, lost, Net(servers, flight), Lose(k));
          lost := lost + [Lose(k)];
        }
      }
      assert Pack(src, sends[|sends|..]) == [] by { NoneInFlight(src, sends); }
      assert front + inbox + [] == front + inbox;
    }

    /** Advance logical time on every server in turn. */
    method Tick(elapsed: nat, draws: seq<nat>)
      requires Valid() && |draws| == |nodes|
      modifies this, nodes
      ensures Valid() && nodes == old(nodes) && old(trace) <= trace
      ensures forall i :: 0 <= i < |nodes| ==>
        nodes[i].State() == Ticked(old(nodes[i].State()), old(nodes[i].Due(elapsed)))
    {
      hide RunsTo, Ticked, Init;
      for i := 0 to |nodes|
        invariant Valid() && nodes == old(nodes) && old(trace) <= trace
        invariant forall j :: i <= j < |nodes| ==> unchanged(nodes[j])
        invariant forall j :: 0 <= j < i ==> nodes[j].State() == Ticked(old(nodes[j].State()), old(nodes[j].Due(elapsed)))
      {
        TickOne(i, elapsed, draws[i]);
      }
    }

    method TickOne(i: nat, elapsed: nat, draw: nat)
      requires Valid() && i < |nodes|
      modifies this, nodes[i]
      ensures Valid() && nodes == old(nodes) && old(trace) <= trace
      ensures nodes[i].State() == Ticked(old(nodes[i].State()), old(nodes[i].Due(elapsed)))
    {
      hide RunsTo, Timeout, Appends, Init;
      ghost var before := Abs();
      var due := nodes[i].Due(elapsed);
      var out := nodes[i].Tick(elapsed, draw);
      if due {
        ghost var step := if before.servers[i].role == Leader then Heartbeat(i) else ElectionTimeout(i);
        RunsToStep(Init(|nodes|), trace, before, step);
        trace := trace + [step];
        assert Apply(before, step) == Net(Abs().servers, inbox + Pack(i, out));
      } else {
        assert before == Net(Abs().servers, inbox + Pack(i, out));
      }
      ghost var middle := Net(Abs().servers, inbox + Pack(i, out));
      assert [] + inbox + Pack(i, out) == inbox + Pack(i, out);
      ghost var lost := SendAll(i, out, middle.servers, []);
      assert Net(middle.servers, [] + inbox) == Abs();
      RunsToConcat(Init(|nodes|), trace, middle, lost, Abs());
      trace := trace + lost;
      assert Net(middle.servers, inbox) == Abs();
    }

    /** Deliver every packet now in flight once; replies queue behind them. */
    method Step() returns (delivered: nat)
      requires Valid()
      modifies this, nodes
      ensures Valid() && nodes == old(nodes) && old(trace) <= trace
      ensures delivered == |old(inbox)| && Deliveries(trace) == Deliveries(old(trace)) + delivered
    {
      var batch := inbox;
      delivered := |batch|;
      inbox := [];
      assert Abs().(inbox := batch[0..] + inbox) == old(Abs());
      for k := 0 to |batch|
        invariant nodes == old(nodes) && old(trace) <= trace
        invariant forall i, j :: 0 <= i < j < |nodes| ==> nodes[i] != nodes[j]
        invariant RunsTo(Init(|nodes|), trace, Abs().(inbox := batch[k..] + inbox))
        invariant Deliveries(trace) == Deliveries(old(trace)) + k
      {
        DeliverOne(batch, k);
      }
      assert batch[|batch|..] + inbox == inbox;
    }

    method DeliverOne(batch: seq<Packet>, k: nat)
      requires k < |batch|
      requires forall i, j :: 0 <= i < j < |nodes| ==> nodes[i] != nodes[j]
      requires RunsTo(Init(|nodes|), trace, Abs().(inbox := batch[k..] + inbox))
      modifies this, nodes
      ensures nodes == old(nodes) && old(trace) <= trace
      ensures RunsTo(Init(|nodes|), trace, Abs().(inbox := batch[k + 1..] + inbox))
      ensures Deliveries(trace) == Deliveries(old(trace)) + 1
    {
      hide RunsTo, Handle, Init;
      var p := batch[k];
      ghost var before := Abs().(inbox := batch[k..] + inbox);
      assert before.inbox[0] == p && p.dst < |nodes| by {
        var h := ReachableIsSafe(|nodes|, trace, before);
        assert PacketOk(before, h, before.inbox[0]);
      }
      var replies := nodes[p.dst].HandleMessage(p.src, p.msg);
      RunsToStep(Init(|nodes|), trace, before, Deliver(0));
      trace := trace + [Deliver(0)];
      ghost var front := batch[k + 1..];
      assert Without(before.inbox, 0) == front + inbox;
      ghost var middle := Net(Abs().servers, front + inbox + Pack(p.dst, replies));
      assert middle == Apply(before, Deliver(0));
      ghost var lost := SendAll(p.dst, replies, middle.servers, front);
      assert Abs().(inbox := front + inbox) == Net(middle.servers, front + inbox);
      RunsToConcat(Init(|nodes|), trace, middle, lost, Abs().(inbox := front + inbox));
      LossesDeliverNothing(trace, lost);
      trace := trace + lost;
      assert Abs().(inbox := front + inbox) == Net(middle.servers, front + inbox);
    }

    /** Submit a client command; only a leader accepts it. */
    method Submit(to: nat, command: seq<bv8>) returns (ok: bool)
      requires Valid() && to < |nodes|
      modifies this, nodes
      ensures Valid() && nodes == old(nodes) && inbox == old(inbox)
      ensures ok == (old(nodes[to].role) == Leader)
      ensures !ok ==> Abs() == old(Abs()) && trace == old(trace)
      ensures ok ==> Abs().servers == old(Abs().servers)[to := AppendLocal(old(nodes[to].State()), command)]
    {
      hide RunsTo, Init;
      ok := nodes[to].role == Leader;
      if ok {
        ghost var before := Abs();
        nodes[to].AppendCommand(command);
        nodes[to].heartbeatDueIn := 0;
        RunsToStep(Init(|nodes|), trace, before, Propose(to, command));
        assert Abs() == Apply(before, Propose(to, command));
        trace := trace + [Propose(to, command)];
        assert Abs() == Apply(before, Propose(to, command));
      }
    }

    /** In every state the object can be in, no two servers lead the same term. */
    lemma OneLeaderPerTerm(a: nat, b: nat)
      requires Valid() && a < |nodes| && b < |nodes|
      requires nodes[a].role == Leader && nodes[b].role == Leader && nodes[a].currentTerm == nodes[b].currentTerm
      ensures a == b
    {
      var h := ReachableIsSafe(|nodes|, trace, Abs());
      assert ServerOk(Abs(), h, a) && ServerOk(Abs(), h, b);
    }
  }
}
