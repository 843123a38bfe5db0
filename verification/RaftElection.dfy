/** Election safety.  The vote tally is a bare counter, so the argument follows
    each vote as a token: the request for it, the granted reply and the counted
    vote are three stages of one token, and no token ever exists twice. */
module RaftElection {
  import opened Options
  import opened RaftModel
  import opened SetSizes

  datatype Slot = Slot(voter: nat, term: nat)
  datatype Ballot = Ballot(cand: nat, term: nat)
  datatype EntryId = EntryId(term: nat, index: nat)

  /** What has happened so far, as far as the proofs need it: who was granted
      each voter's vote, which votes each candidate has counted, who won each
      term, and the log prefix that ended in each entry when it was created. */
  datatype History = History(
    granted: map<Slot, nat>,
    counted: map<Ballot, set<nat>>,
    leaders: map<nat, nat>,
    prefix: map<EntryId, seq<Entry>>)

  const EMPTY_HISTORY := History(map[], map[], map[], map[])

  function Counted(h: History, c: nat, t: nat): set<nat>
  {
    if Ballot(c, t) in h.counted then h.counted[Ballot(c, t)] else {}
  }

  // ---------------------------------------------------------------------
  // Tokens
  // ---------------------------------------------------------------------

  /** Is this packet a stage of voter v's vote for candidate c in term t? */
  predicate IsToken(p: Packet, v: nat, c: nat, t: nat)
  {
    || (p.msg.RequestVote? && p.msg.term == t && p.src == c && p.dst == v)
    || (p.msg.RequestVoteReply? && p.msg.granted && p.msg.term == t && p.src == v && p.dst == c)
  }

  function Tokens(ps: seq<Packet>, v: nat, c: nat, t: nat): nat
  {
    if ps == [] then 0 else Tokens(ps[..|ps| - 1], v, c, t) + if IsToken(ps[|ps| - 1], v, c, t) then 1 else 0
  }

  lemma {:induction false} TokensConcat(a: seq<Packet>, b: seq<Packet>, v: nat, c: nat, t: nat)
    ensures Tokens(a + b, v, c, t) == Tokens(a, v, c, t) + Tokens(b, v, c, t)
    decreases |b|
  {
    if b == [] {
      assert a + b == a;
    } else {
      assert (a + b)[..|a + b| - 1] == a + b[..|b| - 1];
      TokensConcat(a, b[..|b| - 1], v, c, t);
    }
  }

  lemma TokensWithout(ps: seq<Packet>, k: nat, v: nat, c: nat, t: nat)
    requires k < |ps|
    ensures Tokens(ps, v, c, t) == Tokens(Without(ps, k), v, c, t) + if IsToken(ps[k], v, c, t) then 1 else 0
  {
    assert ps == ps[..k] + [ps[k]] + ps[k + 1..];
    TokensConcat(ps[..k] + [ps[k]], ps[k + 1..], v, c, t);
    TokensConcat(ps[..k], [ps[k]], v, c, t);
    TokensConcat(ps[..k], ps[k + 1..], v, c, t);
  }

  lemma {:induction false} NoTokens(ps: seq<Packet>, v: nat, c: nat, t: nat)
    requires forall i :: 0 <= i < |ps| ==> !IsToken(ps[i], v, c, t)
    ensures Tokens(ps, v, c, t) == 0
    decreases |ps|
  {
    if ps != [] { NoTokens(ps[..|ps| - 1], v, c, t); }
  }

  // ---------------------------------------------------------------------
  // The invariant
  // ---------------------------------------------------------------------

  ghost predicate ServerOk(n: Net, h: History, i: nat)
    requires i < |n.servers|
  {
    var s := n.servers[i];
    && s.id == i && s.size == |n.servers|
    && (s.role == Candidate ==> s.votes == |Counted(h, i, s.term)|)
    && (s.role == Leader ==> s.term in h.leaders && h.leaders[s.term] == i)
  }

  ghost predicate PacketOk(n: Net, h: History, p: Packet)
  {
    && p.src < |n.servers| && p.dst < |n.servers| && p.src != p.dst
    && match p.msg
       case RequestVote(t, c, _, _) => c == p.src && t <= n.servers[c].term
       case RequestVoteReply(t, granted) =>
         granted ==> Slot(p.src, t) in h.granted && h.granted[Slot(p.src, t)] == p.dst
       case AppendEntries(t, l, _, _, _, _) => l == p.src && t in h.leaders && h.leaders[t] == l
       case AppendEntriesReply(_, _, _) => true
  }

  ghost predicate GrantOk(n: Net, h: History, slot: Slot)
    requires slot in h.granted
  {
    var c := h.granted[slot];
    && slot.voter < |n.servers| && c < |n.servers|
    && slot.term <= n.servers[slot.voter].term && slot.term <= n.servers[c].term
    && (slot.term == n.servers[slot.voter].term ==> n.servers[slot.voter].votedFor == Some(c))
  }

  ghost predicate CountOk(n: Net, h: History, b: Ballot)
  {
    && b.cand < |n.servers| && b.term <= n.servers[b.cand].term
    && forall v :: v in Counted(h, b.cand, b.term) ==>
         Slot(v, b.term) in h.granted && h.granted[Slot(v, b.term)] == b.cand
  }

  ghost predicate LeaderOk(n: Net, h: History, t: nat)
    requires t in h.leaders
  {
    var l := h.leaders[t];
    && l < |n.servers|
    && |Counted(h, l, t)| >= Quorum(|n.servers|)
    && t <= n.servers[l].term
    && (t == n.servers[l].term ==> n.servers[l].role == Leader)
  }

  /** At most one copy of each vote: requested, granted or counted. */
  ghost predicate TokenOk(n: Net, h: History, v: nat, c: nat, t: nat)
  {
    Tokens(n.inbox, v, c, t) + (if v in Counted(h, c, t) then 1 else 0) <= 1
  }

  ghost predicate Inv(n: Net, h: History)
  {
    && (forall i :: 0 <= i < |n.servers| ==> ServerOk(n, h, i))
    && (forall k :: 0 <= k < |n.inbox| ==> PacketOk(n, h, n.inbox[k]))
    && (forall slot :: slot in h.granted ==> GrantOk(n, h, slot))
    && (forall b :: b in h.counted ==> CountOk(n, h, b))
    && (forall t :: t in h.leaders ==> LeaderOk(n, h, t))
    && (forall v, c, t :: TokenOk(n, h, v, c, t))
  }

  // ---------------------------------------------------------------------
  // Quorums intersect
  // ---------------------------------------------------------------------

  lemma QuorumsIntersect(a: set<nat>, b: set<nat>, n: nat) returns (v: nat)
    requires forall x :: x in a + b ==> x < n
    requires |a| >= Quorum(n) && |b| >= Quorum(n)
    ensures v in a && v in b
  {
    BoundedSet(a + b, 0, n);
    assert |a + b| + |a * b| == |a| + |b|;
    assert a * b != {};
    v :| v in a * b;
  }

  lemma CountedVotersAreServers(n: Net, h: History, c: nat, t: nat)
    requires Inv(n, h)
    ensures forall v :: v in Counted(h, c, t) ==> v < |n.servers| && Slot(v, t) in h.granted && h.granted[Slot(v, t)] == c
  {
    if Ballot(c, t) in h.counted {
      assert CountOk(n, h, Ballot(c, t));
      forall v | v in Counted(h, c, t)
        ensures v < |n.servers| && Slot(v, t) in h.granted && h.granted[Slot(v, t)] == c
      {
        assert GrantOk(n, h, Slot(v, t));
      }
    }
  }

  /** A server still a candidate with a quorum of counted votes stands in a term nobody has won. */
  lemma TermIsOpen(n: Net, h: History, i: nat)
    requires Inv(n, h) && i < |n.servers| && n.servers[i].role == Candidate
    requires |Counted(h, i, n.servers[i].term)| >= Quorum(|n.servers|)
    ensures n.servers[i].term !in h.leaders
  {
    var t := n.servers[i].term;
    if t in h.leaders {
      assert LeaderOk(n, h, t);
      var l := h.leaders[t];
      CountedVotersAreServers(n, h, i, t);
      CountedVotersAreServers(n, h, l, t);
      var v := QuorumsIntersect(Counted(h, i, t), Counted(h, l, t), |n.servers|);
      assert false;
    }
  }

  // ---------------------------------------------------------------------
  // What moving forward keeps
  // ---------------------------------------------------------------------

  /** Terms never fall, and no vote or victory on record is changed. */
  ghost predicate Forward(n: Net, h: History, n': Net, h': History)
  {
    && |n'.servers| == |n.servers|
    && (forall i :: 0 <= i < |n.servers| ==> n.servers[i].term <= n'.servers[i].term)
    && (forall slot :: slot in h.granted ==> slot in h'.granted && h'.granted[slot] == h.granted[slot])
    && (forall t :: t in h.leaders ==> t in h'.leaders && h'.leaders[t] == h.leaders[t])
  }

  /** In an unchanged term a cast vote stands, and a leader stays in office. */
  ghost predicate Loyal(n: Net, n': Net)
  {
    && |n'.servers| == |n.servers|
    && forall i :: 0 <= i < |n.servers| && n'.servers[i].term == n.servers[i].term ==>
         && n.servers[i].votedFor in {None, n'.servers[i].votedFor}
         && (n.servers[i].role == Leader ==> n'.servers[i].role == Leader)
  }

  /** Only the count of one ballot may have changed. */
  ghost predicate SameCounts(h: History, h': History, but: Option<Ballot>)
  {
    && (forall b :: b in h'.counted ==> b in h.counted || Some(b) == but)
    && forall c, t :: Some(Ballot(c, t)) != but ==> Counted(h', c, t) == Counted(h, c, t)
  }

  lemma PacketsKept(n: Net, h: History, n': Net, h': History)
    requires Forward(n, h, n', h') && forall k :: 0 <= k < |n.inbox| ==> PacketOk(n, h, n.inbox[k])
    ensures forall k :: 0 <= k < |n.inbox| ==> PacketOk(n', h', n.inbox[k])
  {
    forall k | 0 <= k < |n.inbox| ensures PacketOk(n', h', n.inbox[k]) { assert PacketOk(n, h, n.inbox[k]); }
  }

  lemma GrantsKept(n: Net, h: History, n': Net, h': History)
    requires Forward(n, h, n', h') && Loyal(n, n') && forall slot :: slot in h.granted ==> GrantOk(n, h, slot)
    ensures forall slot :: slot in h.granted ==> slot in h'.granted && GrantOk(n', h', slot)
  {
    forall slot | slot in h.granted ensures slot in h'.granted && GrantOk(n', h', slot) { assert GrantOk(n, h, slot); }
  }

  lemma CountsKept(n: Net, h: History, n': Net, h': History, but: Option<Ballot>)
    requires Forward(n, h, n', h') && SameCounts(h, h', but) && forall b :: b in h.counted ==> CountOk(n, h, b)
    ensures forall b :: b in h'.counted && Some(b) != but ==> CountOk(n', h', b)
  {
    hide Counted;
    forall b | b in h'.counted && Some(b) != but ensures CountOk(n', h', b) {
      assert b == Ballot(b.cand, b.term) && CountOk(n, h, b);
    }
  }

  lemma LeadersKept(n: Net, h: History, n': Net, h': History, but: Option<Ballot>)
    requires Forward(n, h, n', h') && Loyal(n, n') && SameCounts(h, h', but) && forall t :: t in h.leaders ==> LeaderOk(n, h, t)
    requires but.Some? && but.value.term in h.leaders ==> h.leaders[but.value.term] != but.value.cand
    ensures forall t :: t in h.leaders ==> t in h'.leaders && LeaderOk(n', h', t)
  {
    hide Counted;
    forall t | t in h.leaders ensures t in h'.leaders && LeaderOk(n', h', t) {
      assert LeaderOk(n, h, t);
      assert Some(Ballot(h.leaders[t], t)) != but;
    }
  }

  /** One server changed, and at most that server's count. */
  lemma ServersKept(n: Net, h: History, n': Net, h': History, i: nat, but: Option<Ballot>)
    requires i < |n.servers| && Forward(n, h, n', h') && SameCounts(h, h', but) && (but.Some? ==> but.value.cand == i)
    requires forall j :: 0 <= j < |n.servers| ==> ServerOk(n, h, j)
    requires forall j :: 0 <= j < |n.servers| && j != i ==> n'.servers[j] == n.servers[j]
    requires ServerOk(n', h', i)
    ensures forall j :: 0 <= j < |n'.servers| ==> ServerOk(n', h', j)
  {
    hide Counted;
    forall j | 0 <= j < |n'.servers| ensures ServerOk(n', h', j) {
      assert ServerOk(n, h, j);
      if j != i { assert Some(Ballot(j, n.servers[j].term)) != but; }
    }
  }

  lemma InvParts(n: Net, h: History)
    requires Inv(n, h)
    ensures forall i :: 0 <= i < |n.servers| ==> ServerOk(n, h, i)
    ensures forall k :: 0 <= k < |n.inbox| ==> PacketOk(n, h, n.inbox[k])
    ensures forall slot :: slot in h.granted ==> GrantOk(n, h, slot)
    ensures forall b :: b in h.counted ==> CountOk(n, h, b)
    ensures forall t :: t in h.leaders ==> LeaderOk(n, h, t)
  {
    hide ServerOk, PacketOk, GrantOk, CountOk, LeaderOk, TokenOk;
  }

  // ---------------------------------------------------------------------
  // Parts of a step
  // ---------------------------------------------------------------------

  /** Losing a packet keeps the invariant. */
  lemma LosePreserves(n: Net, h: History, k: nat)
    requires Inv(n, h) && k < |n.inbox|
    ensures Inv(n.(inbox := Without(n.inbox, k)), h)
  {
    var n' := n.(inbox := Without(n.inbox, k));
    forall j | 0 <= j < |n'.inbox| ensures PacketOk(n', h, n'.inbox[j]) {
      assert n'.inbox[j] == n.inbox[if j < k then j else j + 1];
      assert PacketOk(n, h, n.inbox[if j < k then j else j + 1]);
    }
    forall v, c, t ensures TokenOk(n', h, v, c, t) {
      assert TokenOk(n, h, v, c, t);
      TokensWithout(n.inbox, k, v, c, t);
    }
    forall i | 0 <= i < |n'.servers| ensures ServerOk(n', h, i) { assert ServerOk(n, h, i); }
    forall slot | slot in h.granted ensures GrantOk(n', h, slot) { assert GrantOk(n, h, slot); }
    forall b | b in h.counted ensures CountOk(n', h, b) { assert CountOk(n, h, b); }
    forall t | t in h.leaders ensures LeaderOk(n', h, t) { assert LeaderOk(n, h, t); }
  }

  /** A change of one server that opens or ends no candidacy, keeps its vote in
      the same term and never moves its term back. */
  ghost predicate QuietChange(s: Server, s': Server)
  {
    && s'.id == s.id && s'.size == s.size
    && s.term <= s'.term
    && (s'.term == s.term ==> s'.votedFor == s.votedFor && (s'.role == s.role || (s.role == Candidate && s'.role == Follower)))
    && (s'.term > s.term ==> s'.role == Follower)
    && (s'.role == Candidate ==> s'.votes == s.votes)
  }

  lemma QuietPreserves(n: Net, h: History, i: nat, s': Server)
    requires Inv(n, h) && i < |n.servers| && QuietChange(n.servers[i], s')
    ensures Inv(n.(servers := n.servers[i := s']), h)
  {
    hide ServerOk, PacketOk, GrantOk, CountOk, LeaderOk, TokenOk, Forward, Loyal, SameCounts, Counted;
    var n' := n.(servers := n.servers[i := s']);
    InvParts(n, h);
    assert Forward(n, h, n', h) && Loyal(n, n') && SameCounts(h, h, None) && ServerOk(n', h, i) by { QuietMoves(n, h, i, s'); }
    TokensKept(n, h, n', h);
    PacketsKept(n, h, n', h);
    GrantsKept(n, h, n', h);
    CountsKept(n, h, n', h, None);
    LeadersKept(n, h, n', h, None);
    ServersKept(n, h, n', h, i, None);
  }

  lemma QuietMoves(n: Net, h: History, i: nat, s': Server)
    requires i < |n.servers| && QuietChange(n.servers[i], s') && ServerOk(n, h, i)
    ensures var n' := n.(servers := n.servers[i := s']); Forward(n, h, n', h) && Loyal(n, n') && SameCounts(h, h, None) && ServerOk(n', h, i)
  {
  }

  /** Sending packets that carry no token. */
  lemma SendPreserves(n: Net, h: History, ps: seq<Packet>)
    requires Inv(n, h)
    requires forall k :: 0 <= k < |ps| ==> PacketOk(n, h, ps[k])
    requires forall k :: 0 <= k < |ps| ==> !ps[k].msg.RequestVote? && (ps[k].msg.RequestVoteReply? ==> !ps[k].msg.granted)
    ensures Inv(n.(inbox := n.inbox + ps), h)
  {
    var n' := n.(inbox := n.inbox + ps);
    forall k | 0 <= k < |n'.inbox| ensures PacketOk(n', h, n'.inbox[k]) {
      assert k < |n.inbox| ==> PacketOk(n, h, n.inbox[k]);
      assert k >= |n.inbox| ==> PacketOk(n, h, ps[k - |n.inbox|]);
    }
    forall v, c, t ensures TokenOk(n', h, v, c, t) {
      assert TokenOk(n, h, v, c, t);
      TokensConcat(n.inbox, ps, v, c, t);
      NoTokens(ps, v, c, t);
    }
    forall j | 0 <= j < |n'.servers| ensures ServerOk(n', h, j) { assert ServerOk(n, h, j); }
    forall slot | slot in h.granted ensures GrantOk(n', h, slot) { assert GrantOk(n, h, slot); }
    forall b | b in h.counted ensures CountOk(n', h, b) { assert CountOk(n, h, b); }
    forall t | t in h.leaders ensures LeaderOk(n', h, t) { assert LeaderOk(n, h, t); }
  }

  /** A voter grants its vote: the request token becomes a reply token. */
  lemma GrantPreserves(n: Net, h: History, k: nat) returns (h': History)
    requires Inv(n, h) && k < |n.inbox| && n.inbox[k].msg.RequestVote? && n.inbox[k].dst < |n.servers|
    requires n.servers[n.inbox[k].dst].term == n.inbox[k].msg.term
    requires n.servers[n.inbox[k].dst].votedFor in {None, Some(n.inbox[k].src)}
    ensures h' == h.(granted := h.granted[Slot(n.inbox[k].dst, n.inbox[k].msg.term) := n.inbox[k].src])
    ensures Inv(Granting(n, k), h')
  {
    var p := n.inbox[k];
    h' := h.(granted := h.granted[Slot(p.dst, p.msg.term) := p.src]);
    assert PacketOk(n, h, p);
    assert Slot(p.dst, p.msg.term) in h.granted ==> GrantOk(n, h, Slot(p.dst, p.msg.term));
    GrantTokens(n, h, k, h');
    LosePreserves(n, h, k);
    VoteRecorded(n.(inbox := Without(n.inbox, k)), h, p.dst, p.src, h', Granting(n, k));
  }

  lemma GrantTokens(n: Net, h: History, k: nat, h': History)
    requires k < |n.inbox| && n.inbox[k].msg.RequestVote? && n.inbox[k].dst < |n.servers|
    requires forall v, c, t :: TokenOk(n, h, v, c, t)
    requires h'.counted == h.counted
    ensures forall v, c, t :: TokenOk(Granting(n, k), h', v, c, t)
  {
    var p := n.inbox[k];
    forall v, c, t ensures TokenOk(Granting(n, k), h', v, c, t) {
      assert TokenOk(n, h, v, c, t);
      TokensWithout(n.inbox, k, v, c, t);
      TokensConcat(Without(n.inbox, k), [Packet(p.dst, p.src, RequestVoteReply(p.msg.term, true))], v, c, t);
    }
  }

  /** Recording v's vote for c in v's current term, and sending the reply. */
  lemma VoteRecorded(n: Net, h: History, v: nat, c: nat, h': History, n': Net)
    requires v < |n.servers| && c < |n.servers| && c != v && n.servers[v].term <= n.servers[c].term && n.servers[v].votedFor in {None, Some(c)}
    requires h' == h.(granted := h.granted[Slot(v, n.servers[v].term) := c])
    requires Slot(v, n.servers[v].term) in h.granted ==> h.granted[Slot(v, n.servers[v].term)] == c
    requires n'.servers == n.servers[v := n.servers[v].(votedFor := Some(c))]
    requires n'.inbox == n.inbox + [Packet(v, c, RequestVoteReply(n.servers[v].term, true))]
    requires forall v, c, t :: TokenOk(n', h', v, c, t)
    requires Inv(n, h)
    ensures Inv(n', h')
  {
    hide ServerOk, PacketOk, GrantOk, CountOk, LeaderOk, TokenOk, Forward, Loyal, SameCounts;
    InvParts(n, h);
    assert Forward(n, h, n', h') && Loyal(n, n') && SameCounts(h, h', None) by { VoteMoves(n, h, v, c, h', n'); }
    PacketsKept(n, h, n', h');
    GrantsKept(n, h, n', h');
    CountsKept(n, h, n', h', None);
    LeadersKept(n, h, n', h', None);
    assert ServerOk(n', h', v) by { VoterOk(n, h, v, c, h', n'); }
    ServersKept(n, h, n', h', v, None);
    assert GrantOk(n', h', Slot(v, n.servers[v].term)) && PacketOk(n', h', n'.inbox[|n.inbox|]) by { VoteSound(n, h, v, c, h', n'); }
  }

  lemma VoteMoves(n: Net, h: History, v: nat, c: nat, h': History, n': Net)
    requires v < |n.servers| && n.servers[v].votedFor in {None, Some(c)}
    requires Slot(v, n.servers[v].term) in h.granted ==> h.granted[Slot(v, n.servers[v].term)] == c
    requires h' == h.(granted := h.granted[Slot(v, n.servers[v].term) := c]) && n'.servers == n.servers[v := n.servers[v].(votedFor := Some(c))]
    ensures Forward(n, h, n', h') && Loyal(n, n') && SameCounts(h, h', None)
  {
  }

  lemma VoterOk(n: Net, h: History, v: nat, c: nat, h': History, n': Net)
    requires v < |n.servers| && ServerOk(n, h, v) && h'.counted == h.counted && h'.leaders == h.leaders
    requires n'.servers == n.servers[v := n.servers[v].(votedFor := Some(c))]
    ensures ServerOk(n', h', v)
  {
  }

  lemma VoteSound(n: Net, h: History, v: nat, c: nat, h': History, n': Net)
    requires v < |n.servers| && c < |n.servers| && c != v && n.servers[v].term <= n.servers[c].term
    requires h' == h.(granted := h.granted[Slot(v, n.servers[v].term) := c]) && n'.servers == n.servers[v := n.servers[v].(votedFor := Some(c))]
    requires n'.inbox == n.inbox + [Packet(v, c, RequestVoteReply(n.servers[v].term, true))]
    ensures GrantOk(n', h', Slot(v, n.servers[v].term)) && PacketOk(n', h', n'.inbox[|n.inbox|])
  {
  }

  function Granting(n: Net, k: nat): Net
    requires k < |n.inbox| && n.inbox[k].dst < |n.servers|
  {
    var p := n.inbox[k];
    Net(n.servers[p.dst := n.servers[p.dst].(votedFor := Some(p.src))],
        Without(n.inbox, k) + [Packet(p.dst, p.src, RequestVoteReply(p.msg.term, true))])
  }

  /** A candidate counts a vote: the reply token becomes a counted vote. */
  lemma CountPreserves(n: Net, h: History, k: nat) returns (h': History)
    requires Inv(n, h) && k < |n.inbox| && n.inbox[k].dst < |n.servers|
    requires n.inbox[k].msg.RequestVoteReply? && n.inbox[k].msg.granted
    requires n.servers[n.inbox[k].dst].role == Candidate && n.servers[n.inbox[k].dst].term == n.inbox[k].msg.term
    ensures h'.prefix == h.prefix && h'.leaders == h.leaders && h'.granted == h.granted
    ensures Inv(Counting(n, k), h')
  {
    var p := n.inbox[k];
    var v, c, t := p.src, p.dst, p.msg.term;
    h' := h.(counted := h.counted[Ballot(c, t) := Counted(h, c, t) + {v}]);
    assert PacketOk(n, h, p);
    TokensWithout(n.inbox, k, v, c, t);
    assert TokenOk(n, h, v, c, t);
    CountTokens(n, h, k, h');
    LosePreserves(n, h, k);
    VoteCounted(n.(inbox := Without(n.inbox, k)), h, c, v, h', Counting(n, k));
  }

  lemma CountTokens(n: Net, h: History, k: nat, h': History)
    requires k < |n.inbox| && n.inbox[k].dst < |n.servers|
    requires n.inbox[k].msg.RequestVoteReply? && n.inbox[k].msg.granted
    requires forall v, c, t :: TokenOk(n, h, v, c, t)
    requires forall v, c, t :: v in Counted(h', c, t) ==> v in Counted(h, c, t) || IsToken(n.inbox[k], v, c, t)
    ensures forall v, c, t :: TokenOk(Counting(n, k), h', v, c, t)
  {
    forall v, c, t ensures TokenOk(Counting(n, k), h', v, c, t) {
      assert TokenOk(n, h, v, c, t);
      TokensWithout(n.inbox, k, v, c, t);
    }
  }

  lemma VoteCounted(n: Net, h: History, c: nat, v: nat, h': History, n': Net)
    requires c < |n.servers| && n.servers[c].role == Candidate && v !in Counted(h, c, n.servers[c].term)
    requires Slot(v, n.servers[c].term) in h.granted && h.granted[Slot(v, n.servers[c].term)] == c
    requires h' == h.(counted := h.counted[Ballot(c, n.servers[c].term) := Counted(h, c, n.servers[c].term) + {v}])
    requires n'.servers == n.servers[c := n.servers[c].(votes := n.servers[c].votes + 1)] && n'.inbox == n.inbox
    requires forall v, c, t :: TokenOk(n', h', v, c, t)
    requires Inv(n, h)
    ensures Inv(n', h')
  {
    hide ServerOk, PacketOk, GrantOk, CountOk, LeaderOk, TokenOk, Forward, Loyal, SameCounts, Counted;
    var b := Ballot(c, n.servers[c].term);
    InvParts(n, h);
    assert Forward(n, h, n', h') && Loyal(n, n') && SameCounts(h, h', Some(b)) by { CountMoves(n, h, c, v, h', n'); }
    PacketsKept(n, h, n', h');
    GrantsKept(n, h, n', h');
    CountsKept(n, h, n', h', Some(b));
    assert b.term in h.leaders ==> h.leaders[b.term] != c by { CandidateIsNoLeader(n, h, c); }
    LeadersKept(n, h, n', h', Some(b));
    assert ServerOk(n', h', c) && CountOk(n', h', b) by { CountSound(n, h, c, v, h', n'); }
    ServersKept(n, h, n', h', c, Some(b));
  }

  lemma CandidateIsNoLeader(n: Net, h: History, c: nat)
    requires c < |n.servers| && n.servers[c].role == Candidate && forall t :: t in h.leaders ==> LeaderOk(n, h, t)
    ensures n.servers[c].term in h.leaders ==> h.leaders[n.servers[c].term] != c
  {
    assert n.servers[c].term in h.leaders ==> LeaderOk(n, h, n.servers[c].term);
  }

  lemma CountMoves(n: Net, h: History, c: nat, v: nat, h': History, n': Net)
    requires c < |n.servers| && h' == h.(counted := h.counted[Ballot(c, n.servers[c].term) := Counted(h, c, n.servers[c].term) + {v}])
    requires n'.servers == n.servers[c := n.servers[c].(votes := n.servers[c].votes + 1)]
    ensures Forward(n, h, n', h') && Loyal(n, n') && SameCounts(h, h', Some(Ballot(c, n.servers[c].term)))
  {
  }

  /** The counter and the counted votes grow together. */
  lemma CountSound(n: Net, h: History, c: nat, v: nat, h': History, n': Net)
    requires c < |n.servers| && n.servers[c].role == Candidate && v !in Counted(h, c, n.servers[c].term)
    requires Slot(v, n.servers[c].term) in h.granted && h.granted[Slot(v, n.servers[c].term)] == c
    requires h' == h.(counted := h.counted[Ballot(c, n.servers[c].term) := Counted(h, c, n.servers[c].term) + {v}])
    requires n'.servers == n.servers[c := n.servers[c].(votes := n.servers[c].votes + 1)]
    requires ServerOk(n, h, c) && forall b :: b in h.counted ==> CountOk(n, h, b)
    ensures ServerOk(n', h', c) && CountOk(n', h', Ballot(c, n.servers[c].term))
  {
    var b := Ballot(c, n.servers[c].term);
    assert b in h.counted ==> CountOk(n, h, b);
  }

  function Counting(n: Net, k: nat): Net
    requires k < |n.inbox| && n.inbox[k].dst < |n.servers|
  {
    var c := n.inbox[k].dst;
    Net(n.servers[c := n.servers[c].(votes := n.servers[c].votes + 1)], Without(n.inbox, k))
  }

  /** A candidate with a quorum takes office. */
  lemma ElectPreserves(n: Net, h: History, i: nat) returns (h': History)
    requires Inv(n, h) && i < |n.servers| && n.servers[i].role == Candidate
    requires n.servers[i].votes >= Quorum(n.servers[i].size)
    ensures n.servers[i].term !in h.leaders
    ensures h' == h.(leaders := h.leaders[n.servers[i].term := i])
    ensures Inv(n.(servers := n.servers[i := BecomeLeader(n.servers[i])]), h')
  {
    assert ServerOk(n, h, i);
    TermIsOpen(n, h, i);
    h' := h.(leaders := h.leaders[n.servers[i].term := i]);
    var n' := n.(servers := n.servers[i := BecomeLeader(n.servers[i])]);
    ElectedOk(n, h, i, n', h');
  }

  lemma ElectedOk(n: Net, h: History, i: nat, n': Net, h': History)
    requires i < |n.servers| && n.servers[i].role == Candidate && ServerOk(n, h, i)
    requires n.servers[i].votes >= Quorum(n.servers[i].size) && n.servers[i].term !in h.leaders
    requires h' == h.(leaders := h.leaders[n.servers[i].term := i]) && n' == n.(servers := n.servers[i := BecomeLeader(n.servers[i])])
    requires Inv(n, h)
    ensures Inv(n', h')
  {
    hide ServerOk, PacketOk, GrantOk, CountOk, LeaderOk, TokenOk, Forward, Loyal, SameCounts, Counted;
    InvParts(n, h);
    assert Forward(n, h, n', h') && Loyal(n, n') && SameCounts(h, h', None) by { ElectionMoves(n, h, i, n', h'); }
    TokensKept(n, h, n', h');
    PacketsKept(n, h, n', h');
    GrantsKept(n, h, n', h');
    CountsKept(n, h, n', h', None);
    LeadersKept(n, h, n', h', None);
    assert ServerOk(n', h', i) && LeaderOk(n', h', n.servers[i].term) by { WinnerSound(n, h, i, n', h'); }
    ServersKept(n, h, n', h', i, None);
  }

  lemma TokensKept(n: Net, h: History, n': Net, h': History)
    requires n'.inbox == n.inbox && h'.counted == h.counted && forall v, c, t :: TokenOk(n, h, v, c, t)
    ensures forall v, c, t :: TokenOk(n', h', v, c, t)
  {
    forall v, c, t ensures TokenOk(n', h', v, c, t) { assert TokenOk(n, h, v, c, t); }
  }

  lemma ElectionMoves(n: Net, h: History, i: nat, n': Net, h': History)
    requires i < |n.servers| && n.servers[i].role == Candidate && n.servers[i].term !in h.leaders
    requires h' == h.(leaders := h.leaders[n.servers[i].term := i]) && n' == n.(servers := n.servers[i := BecomeLeader(n.servers[i])])
    ensures Forward(n, h, n', h') && Loyal(n, n') && SameCounts(h, h', None)
  {
  }

  lemma WinnerSound(n: Net, h: History, i: nat, n': Net, h': History)
    requires i < |n.servers| && n.servers[i].role == Candidate && ServerOk(n, h, i) && n.servers[i].votes >= Quorum(n.servers[i].size)
    requires h' == h.(leaders := h.leaders[n.servers[i].term := i]) && n' == n.(servers := n.servers[i := BecomeLeader(n.servers[i])])
    ensures ServerOk(n', h', i) && LeaderOk(n', h', n.servers[i].term)
  {
  }

  lemma OneRequest(p: Packet, v: nat, c: nat, t: nat)
    requires p.msg.RequestVote?
    ensures Tokens([p], v, c, t) == if p.msg.term == t && p.src == c && p.dst == v then 1 else 0
  {
    assert [p][..0] == [];
  }

  /** A broadcast of vote requests carries one token per peer. */
  lemma {:induction false} VoteRequestTokens(s: Server, from: nat, v: nat, c: nat, t: nat)
    ensures Tokens(Pack(s.id, VoteRequests(s, from)), v, c, t) <= 1
    ensures v < from || v == s.id || c != s.id || t != s.term ==> Tokens(Pack(s.id, VoteRequests(s, from)), v, c, t) == 0
    decreases s.size - from
  {
    if from < s.size {
      hide Tokens, IsToken;
      VoteRequestTokens(s, from + 1, v, c, t);
      var rest := Pack(s.id, VoteRequests(s, from + 1));
      if from != s.id {
        var first := Packet(s.id, from, RequestVote(s.term, s.id, LastIndex(s.log), LastTerm(s.log)));
        assert Pack(s.id, VoteRequests(s, from)) == [first] + rest;
        TokensConcat([first], rest, v, c, t);
        OneRequest(first, v, c, t);
      } else {
        assert VoteRequests(s, from) == VoteRequests(s, from + 1);
      }
    } else {
      assert Pack(s.id, VoteRequests(s, from)) == [];
    }
  }

  lemma {:induction false} VoteRequestsShape(s: Server, from: nat)
    ensures forall k :: 0 <= k < |VoteRequests(s, from)| ==>
      var m := VoteRequests(s, from)[k];
      m.dst < s.size && m.dst != s.id && m.msg.RequestVote? && m.msg.candidate == s.id && m.msg.term == s.term
    decreases s.size - from
  {
    if from < s.size { VoteRequestsShape(s, from + 1); }
  }

  lemma NoFutureTokens(n: Net, h: History, v: nat, c: nat, t: nat)
    requires Inv(n, h) && c < |n.servers| && t > n.servers[c].term
    ensures Tokens(n.inbox, v, c, t) == 0
  {
    forall k | 0 <= k < |n.inbox| ensures !IsToken(n.inbox[k], v, c, t) {
      assert PacketOk(n, h, n.inbox[k]);
      assert Slot(v, t) in h.granted ==> GrantOk(n, h, Slot(v, t));
    }
    NoTokens(n.inbox, v, c, t);
  }

  function Standing(n: Net, i: nat): Net
    requires i < |n.servers|
  {
    var c := Stand(n.servers[i]);
    Net(n.servers[i := c], n.inbox + Pack(i, VoteRequests(c, 0)))
  }

  /** Standing for a fresh term: one self-vote, one request token per peer. */
  lemma StandPreserves(n: Net, h: History, i: nat) returns (h': History)
    requires Inv(n, h) && i < |n.servers| && n.servers[i].role != Leader
    ensures h'.prefix == h.prefix && h'.leaders == h.leaders && h'.granted == h.granted[Slot(i, n.servers[i].term + 1) := i]
    ensures Inv(Standing(n, i), h')
  {
    var t := n.servers[i].term + 1;
    h' := h.(granted := h.granted[Slot(i, t) := i], counted := h.counted[Ballot(i, t) := {i}]);
    assert Slot(i, t) in h.granted ==> GrantOk(n, h, Slot(i, t));
    StandTokens(n, h, i, h');
    StandPackets(n, h, i, h');
    CandidacyRecorded(n, h, i, h', Standing(n, i));
  }

  lemma CandidacyRecorded(n: Net, h: History, i: nat, h': History, n': Net)
    requires i < |n.servers| && n.servers[i].role != Leader
    requires h' == h.(granted := h.granted[Slot(i, n.servers[i].term + 1) := i],
                      counted := h.counted[Ballot(i, n.servers[i].term + 1) := {i}])
    requires n'.servers == n.servers[i := Stand(n.servers[i])]
    requires forall k :: 0 <= k < |n'.inbox| ==> PacketOk(n', h', n'.inbox[k])
    requires forall v, c, t :: TokenOk(n', h', v, c, t)
    requires Inv(n, h)
    ensures Inv(n', h')
  {
    hide ServerOk, PacketOk, GrantOk, CountOk, LeaderOk, TokenOk, Forward, Loyal, SameCounts, Counted;
    var b := Ballot(i, n.servers[i].term + 1);
    InvParts(n, h);
    TermIsFresh(n, h, i);
    assert Forward(n, h, n', h') && Loyal(n, n') && SameCounts(h, h', Some(b)) by { StandMoves(n, h, i, h', n'); }
    GrantsKept(n, h, n', h');
    CountsKept(n, h, n', h', Some(b));
    LeadersKept(n, h, n', h', Some(b));
    assert ServerOk(n', h', i) && GrantOk(n', h', Slot(i, b.term)) && CountOk(n', h', b) by { CandidateSound(n, h, i, h', n'); }
    ServersKept(n, h, n', h', i, Some(b));
  }

  /** Nobody has voted, counted or won with server i in the term after its own. */
  lemma TermIsFresh(n: Net, h: History, i: nat)
    requires i < |n.servers| && forall slot :: slot in h.granted ==> GrantOk(n, h, slot)
    requires forall t :: t in h.leaders ==> LeaderOk(n, h, t)
    ensures Slot(i, n.servers[i].term + 1) !in h.granted
    ensures n.servers[i].term + 1 in h.leaders ==> h.leaders[n.servers[i].term + 1] != i
  {
    var t := n.servers[i].term + 1;
    assert Slot(i, t) in h.granted ==> GrantOk(n, h, Slot(i, t));
    assert t in h.leaders ==> LeaderOk(n, h, t);
  }

  lemma StandMoves(n: Net, h: History, i: nat, h': History, n': Net)
    requires i < |n.servers| && Slot(i, n.servers[i].term + 1) !in h.granted && n'.servers == n.servers[i := Stand(n.servers[i])]
    requires h' == h.(granted := h.granted[Slot(i, n.servers[i].term + 1) := i],
                      counted := h.counted[Ballot(i, n.servers[i].term + 1) := {i}])
    ensures Forward(n, h, n', h') && Loyal(n, n') && SameCounts(h, h', Some(Ballot(i, n.servers[i].term + 1)))
  {
  }

  lemma CandidateSound(n: Net, h: History, i: nat, h': History, n': Net)
    requires i < |n.servers| && ServerOk(n, h, i) && n'.servers == n.servers[i := Stand(n.servers[i])]
    requires h' == h.(granted := h.granted[Slot(i, n.servers[i].term + 1) := i],
                      counted := h.counted[Ballot(i, n.servers[i].term + 1) := {i}])
    ensures ServerOk(n', h', i) && GrantOk(n', h', Slot(i, n.servers[i].term + 1)) && CountOk(n', h', Ballot(i, n.servers[i].term + 1))
  {
  }

  lemma StandTokens(n: Net, h: History, i: nat, h': History)
    requires Inv(n, h) && i < |n.servers|
    requires h'.counted == h.counted[Ballot(i, n.servers[i].term + 1) := {i}]
    ensures forall v, c, t :: TokenOk(Standing(n, i), h', v, c, t)
  {
    assert ServerOk(n, h, i);
    var s := Stand(n.servers[i]);
    forall v, c, t ensures TokenOk(Standing(n, i), h', v, c, t) {
      assert TokenOk(n, h, v, c, t);
      TokensConcat(n.inbox, Pack(i, VoteRequests(s, 0)), v, c, t);
      VoteRequestTokens(s, 0, v, c, t);
      if c == i && t == s.term { NoFutureTokens(n, h, v, i, t); }
    }
  }

  lemma StandPackets(n: Net, h: History, i: nat, h': History)
    requires Inv(n, h) && i < |n.servers| && h'.leaders == h.leaders
    requires forall slot :: slot in h.granted ==> slot in h'.granted && h'.granted[slot] == h.granted[slot]
    ensures forall k :: 0 <= k < |Standing(n, i).inbox| ==> PacketOk(Standing(n, i), h', Standing(n, i).inbox[k])
  {
    assert ServerOk(n, h, i);
    VoteRequestsShape(Stand(n.servers[i]), 0);
    var n' := Standing(n, i);
    forall k | 0 <= k < |n'.inbox| ensures PacketOk(n', h', n'.inbox[k]) {
      assert k < |n.inbox| ==> PacketOk(n, h, n.inbox[k]);
    }
  }
}
