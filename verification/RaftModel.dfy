/** Value-level model of the Raft servers and of the message-switched network
    between them.  Every transition is a function of the old state; the classes
    of RaftNetwork are proved to perform exactly these transitions.

    Clocks, timeouts and random draws are not part of these states: a step says
    which timer fired or which packet was lost, and every choice is allowed. */
module RaftModel {
  import opened Options

  /** One replicated log entry. */
  datatype Entry = Entry(term: nat, index: nat, command: seq<bv8>)

  datatype Role = Follower | Candidate | Leader

  datatype Message =
    | RequestVote(term: nat, candidate: nat, lastLogIndex: nat, lastLogTerm: nat)
    | RequestVoteReply(term: nat, granted: bool)
    | AppendEntries(term: nat, leader: nat, prevIndex: nat, prevTerm: nat, entries: seq<Entry>, leaderCommit: nat)
    | AppendEntriesReply(term: nat, success: bool, matchIndex: nat)

  /** A message with its destination, as a handler hands it to the network. */
  datatype Send = Send(dst: nat, msg: Message)

  /** A message in flight, tagged with its sender. */
  datatype Packet = Packet(src: nat, dst: nat, msg: Message)

  /** The protocol state of one server. */
  datatype Server = Server(
    id: nat,
    size: nat,
    role: Role,
    term: nat,
    votedFor: Option<nat>,
    votes: nat,
    log: seq<Entry>,
    commit: nat,
    nextIndex: map<nat, nat>,
    matchIndex: map<nat, nat>)

  /** The cluster: all servers and every packet in flight. */
  datatype Net = Net(servers: seq<Server>, inbox: seq<Packet>)

  // ---------------------------------------------------------------------
  // Log queries
  // ---------------------------------------------------------------------

  function Quorum(size: nat): nat { size / 2 + 1 }

  function LastIndex(log: seq<Entry>): nat
  {
    if log == [] then 0 else log[|log| - 1].index
  }

  function LastTerm(log: seq<Entry>): nat
  {
    if log == [] then 0 else log[|log| - 1].term
  }

  /** Position of the first entry at or after `from` that carries `index`. */
  function Position(log: seq<Entry>, index: nat, from: nat): (pos: Option<nat>)
    requires from <= |log|
    ensures pos.Some? ==> from <= pos.value < |log| && log[pos.value].index == index
    ensures pos.Some? ==> forall q :: from <= q < pos.value ==> log[q].index != index
    ensures pos.None? ==> forall q :: from <= q < |log| ==> log[q].index != index
    decreases |log| - from
  {
    if from == |log| then None
    else if log[from].index == index then Some(from)
    else Position(log, index, from + 1)
  }

  /** Term of the entry with the given index, or 0 when there is none. */
  function TermAt(log: seq<Entry>, index: nat): nat
  {
    var pos := Position(log, index, 0);
    if pos.Some? then log[pos.value].term else 0
  }

  /** The entries whose index is at least `next`, in log order. */
  function EntriesFrom(log: seq<Entry>, next: nat): seq<Entry>
  {
    if log == [] then []
    else (if log[0].index >= next then [log[0]] else []) + EntriesFrom(log[1..], next)
  }

  // ---------------------------------------------------------------------
  // Server transitions
  // ---------------------------------------------------------------------

  /** Record `value` for every peer numbered `from` or more. */
  function SetPeers(m: map<nat, nat>, self: nat, size: nat, value: nat, from: nat): (r: map<nat, nat>)
    ensures forall p :: p in r ==>
      if from <= p < size && p != self then r[p] == value else p in m && r[p] == m[p]
    decreases size - from
  {
    if from >= size then m
    else SetPeers(if from != self then m[from := value] else m, self, size, value, from + 1)
  }

  /** Every peer from the given number on has a record, and no record is lost. */
  lemma {:induction false} PeersRecorded(m: map<nat, nat>, self: nat, size: nat, value: nat, from: nat, p: nat)
    ensures p in SetPeers(m, self, size, value, from) <==> p in m || (from <= p < size && p != self)
    decreases size - from
  {
    if from < size { PeersRecorded(if from != self then m[from := value] else m, self, size, value, from + 1, p); }
  }

  function InitServer(id: nat, size: nat): Server
  {
    Server(id, size, Follower, 0, None, 0, [], 0,
           SetPeers(map[], id, size, 1, 0),
           SetPeers(map[], id, size, 0, 0))
  }

  /** Adopt a higher term: forget the vote and drop to follower. */
  function StepDown(s: Server, term: nat): Server
  {
    if term > s.term then s.(term := term, votedFor := None, role := Follower, votes := 0) else s
  }

  /** The AppendEntries message for one peer.  A next index of 0 underflows in
      the source; no message is sent for it here. */
  function BuildAppend(s: Server, peer: nat): Option<Message>
  {
    var next := if peer in s.nextIndex then s.nextIndex[peer] else 1;
    if next == 0 then None
    else Some(AppendEntries(s.term, s.id, next - 1, TermAt(s.log, next - 1), EntriesFrom(s.log, next), s.commit))
  }

  /** One AppendEntries for every peer numbered `from` or more. */
  function Appends(s: Server, from: nat): seq<Send>
    decreases s.size - from
  {
    if from >= s.size then []
    else (if from != s.id && BuildAppend(s, from).Some? then [Send(from, BuildAppend(s, from).value)] else [])
         + Appends(s, from + 1)
  }

  /** One RequestVote for every peer numbered `from` or more. */
  function VoteRequests(s: Server, from: nat): seq<Send>
    decreases s.size - from
  {
    if from >= s.size then []
    else (if from != s.id then [Send(from, RequestVote(s.term, s.id, LastIndex(s.log), LastTerm(s.log)))] else [])
         + VoteRequests(s, from + 1)
  }

  /** Take office: every follower is assumed to hold the whole log. */
  function BecomeLeader(s: Server): Server
  {
    s.(role := Leader,
       nextIndex := SetPeers(s.nextIndex, s.id, s.size, LastIndex(s.log) + 1, 0),
       matchIndex := SetPeers(s.matchIndex, s.id, s.size, 0, 0))
  }

  /** A fired election timer: stand for the next term and vote for oneself. */
  function Stand(s: Server): Server
  {
    s.(role := Candidate, term := s.term + 1, votedFor := Some(s.id), votes := 1)
  }

  function Timeout(s: Server): (Server, seq<Send>)
  {
    var c := Stand(s);
    (if 1 >= Quorum(c.size) then BecomeLeader(c) else c, VoteRequests(c, 0))
  }

  function UpToDate(s: Server, lastIndex: nat, lastTerm: nat): bool
  {
    lastTerm > LastTerm(s.log) || (lastTerm == LastTerm(s.log) && lastIndex >= LastIndex(s.log))
  }

  function OnRequestVote(s: Server, m: Message): (Server, seq<Send>)
    requires m.RequestVote?
  {
    if m.term < s.term then (s, [Send(m.candidate, RequestVoteReply(s.term, false))])
    else
      var d := StepDown(s, m.term);
      if (d.votedFor.None? || d.votedFor == Some(m.candidate)) && UpToDate(d, m.lastLogIndex, m.lastLogTerm) then
        (d.(votedFor := Some(m.candidate)), [Send(m.candidate, RequestVoteReply(d.term, true))])
      else
        (d, [Send(m.candidate, RequestVoteReply(d.term, false))])
  }

  function OnVoteReply(s: Server, m: Message): (Server, seq<Send>)
    requires m.RequestVoteReply?
  {
    if s.role != Candidate || m.term > s.term then (StepDown(s, m.term), [])
    else if m.term == s.term && m.granted then
      var v := s.(votes := s.votes + 1);
      if v.votes >= Quorum(v.size) then (BecomeLeader(v), Appends(BecomeLeader(v), 0)) else (v, [])
    else (s, [])
  }

  /** Fold one received entry into a follower's log. */
  function MergeOne(log: seq<Entry>, e: Entry): seq<Entry>
  {
    match Position(log, e.index, 0)
    case Some(pos) => if log[pos].term == e.term then log else log[..pos] + [e]
    case None => if e.index == LastIndex(log) + 1 then log + [e] else log
  }

  function Merge(log: seq<Entry>, es: seq<Entry>): seq<Entry>
    decreases |es|
  {
    if es == [] then log else Merge(MergeOne(log, es[0]), es[1..])
  }

  /** The AppendEntries consistency check. */
  function Consistent(log: seq<Entry>, prevIndex: nat, prevTerm: nat): bool
  {
    prevIndex == 0 ||
    var pos := Position(log, prevIndex, 0);
    pos.Some? && log[pos.value].term == prevTerm
  }

  function Min(a: nat, b: nat): nat { if a <= b then a else b }

  function Max(a: nat, b: nat): nat { if a >= b then a else b }

  function OnAppend(s: Server, m: Message): (Server, seq<Send>)
    requires m.AppendEntries?
  {
    if m.term < s.term then (s, [Send(m.leader, AppendEntriesReply(s.term, false, LastIndex(s.log)))])
    else
      var d := StepDown(s, m.term);
      var f := if d.role == Candidate then d.(role := Follower) else d;
      if !Consistent(f.log, m.prevIndex, m.prevTerm) then
        (f, [Send(m.leader, AppendEntriesReply(f.term, false, LastIndex(f.log)))])
      else
        var log := Merge(f.log, m.entries);
        var commit := if m.leaderCommit > f.commit then Min(m.leaderCommit, LastIndex(log)) else f.commit;
        (f.(log := log, commit := commit), [Send(m.leader, AppendEntriesReply(f.term, true, LastIndex(log)))])
  }

  /** How many servers hold entry `n`, counting the leader itself. */
  function Replicas(s: Server, n: nat): nat
  {
    1 + |set p | p in s.matchIndex && s.matchIndex[p] >= n|
  }

  /** The commit rule counts only entries of the leader's own term. */
  predicate Committable(s: Server, n: nat)
  {
    TermAt(s.log, n) == s.term && Replicas(s, n) >= Quorum(s.size)
  }

  /** Greatest committable index in (commit, upTo], else the old commit index. */
  function Committed(s: Server, upTo: nat): (c: nat)
    ensures c == s.commit || (s.commit < c <= upTo && Committable(s, c))
    ensures forall n :: s.commit < n <= upTo && Committable(s, n) ==> n <= c
    decreases upTo
  {
    if upTo <= s.commit then s.commit
    else if Committable(s, upTo) then upTo
    else Committed(s, upTo - 1)
  }

  function AdvanceCommit(s: Server): Server
  {
    s.(commit := Committed(s, LastIndex(s.log)))
  }

  function OnAppendReply(s: Server, src: nat, m: Message): (Server, seq<Send>)
    requires m.AppendEntriesReply?
  {
    if s.role != Leader || m.term > s.term then (StepDown(s, m.term), [])
    else if m.term < s.term then (s, [])
    else if m.success then
      var prior := if src in s.matchIndex then s.matchIndex[src] else 0;
      (AdvanceCommit(s.(matchIndex := s.matchIndex[src := Max(prior, m.matchIndex)])), [])
    else
      var prior := if src in s.nextIndex then s.nextIndex[src] else 1;
      var b := s.(nextIndex := s.nextIndex[src := Max(prior, 1) - 1]);
      (b, if BuildAppend(b, src).Some? then [Send(src, BuildAppend(b, src).value)] else [])
  }

  function Handle(s: Server, src: nat, m: Message): (Server, seq<Send>)
  {
    match m
    case RequestVote(_, _, _, _) => OnRequestVote(s, m)
    case RequestVoteReply(_, _) => OnVoteReply(s, m)
    case AppendEntries(_, _, _, _, _, _) => OnAppend(s, m)
    case AppendEntriesReply(_, _, _) => OnAppendReply(s, src, m)
  }

  function AppendLocal(s: Server, command: seq<bv8>): Server
  {
    AdvanceCommit(s.(log := s.log + [Entry(s.term, LastIndex(s.log) + 1, command)]))
  }

  // ---------------------------------------------------------------------
  // Network transitions
  // ---------------------------------------------------------------------

  function Init(size: nat): Net
  {
    Net(seq(size, i requires 0 <= i < size => InitServer(i, size)), [])
  }

  function Pack(src: nat, sends: seq<Send>): (ps: seq<Packet>)
    ensures |ps| == |sends|
    ensures forall i :: 0 <= i < |ps| ==> ps[i] == Packet(src, sends[i].dst, sends[i].msg)
  {
    seq(|sends|, i requires 0 <= i < |sends| => Packet(src, sends[i].dst, sends[i].msg))
  }

  function Without<T>(s: seq<T>, k: nat): seq<T>
    requires k < |s|
  {
    s[..k] + s[k + 1..]
  }

  /** What can happen next: an election timer fires, a leader's heartbeat falls
      due, a packet is delivered or lost, or a client proposes to a leader. */
  datatype Step =
    | ElectionTimeout(server: nat)
    | Heartbeat(server: nat)
    | Deliver(packet: nat)
    | Lose(packet: nat)
    | Propose(server: nat, command: seq<bv8>)

  predicate Enabled(n: Net, step: Step)
  {
    match step
    case ElectionTimeout(i) => i < |n.servers| && n.servers[i].role != Leader
    case Heartbeat(i) => i < |n.servers| && n.servers[i].role == Leader
    case Deliver(k) => k < |n.inbox| && n.inbox[k].dst < |n.servers|
    case Lose(k) => k < |n.inbox|
    case Propose(i, _) => i < |n.servers| && n.servers[i].role == Leader
  }

  function Apply(n: Net, step: Step): Net
    requires Enabled(n, step)
  {
    match step
    case ElectionTimeout(i) =>
      var (s, out) := Timeout(n.servers[i]);
      Net(n.servers[i := s], n.inbox + Pack(i, out))
    case Heartbeat(i) =>
      Net(n.servers, n.inbox + Pack(i, Appends(n.servers[i], 0)))
    case Deliver(k) =>
      var p := n.inbox[k];
      var (s, out) := Handle(n.servers[p.dst], p.src, p.msg);
      Net(n.servers[p.dst := s], Without(n.inbox, k) + Pack(p.dst, out))
    case Lose(k) =>
      Net(n.servers, Without(n.inbox, k))
    case Propose(i, command) =>
      Net(n.servers[i := AppendLocal(n.servers[i], command)], n.inbox)
  }

  /** A run: states joined by steps, starting from the initial cluster. */
  ghost predicate IsRun(size: nat, states: seq<Net>, steps: seq<Step>)
  {
    && |states| == |steps| + 1
    && states[0] == Init(size)
    && forall i :: 0 <= i < |steps| ==> Enabled(states[i], steps[i]) && states[i + 1] == Apply(states[i], steps[i])
  }
}
