# LionFS, verified model

LionFS is a Rust file system with a clustered engine. This project models nine of its
components in Dafny and proves what they are for. Each component that the source updates
in place is a class with the same fields, its loops are loops, and each method is proved
against a specification; the theorems are proved about those specifications.

- **Raft** (`RaftModel`, `RaftElection`, `RaftLog`, `RaftSafety`, `RaftVotes`, `RaftReplies`,
  `RaftNetwork`). Servers and
  an inbox take steps: a timer fires, a heartbeat falls due, a packet is delivered or lost, a
  client proposes. Over every run at most one server ever leads a term, although votes are
  counted by a bare counter: each vote is followed as a token that is requested, granted and
  counted once. Two logs, at any two moments, that share an entry's index and term agree up
  to it, and a successful append leaves the follower with the leader's log as sent. Votes are granted
  exactly to logs that are no earlier, so every leader was at least as up to date as a quorum. `Node` and
  `Network` are the source's objects; every state they can be in belongs to a run.
- **Reed-Solomon codec** (`Gf256`, `LinearAlgebra`, `Vandermonde`, `GfTables`, `GaussJordan`,
  `ReedSolomon`, `ByteNumbers`). GF(256) modulo 0x11D is shown to be a field generated by 2,
  the log and exp tables to compute in it, Gauss-Jordan to find an inverse exactly when there
  is one, and any k rows of the systematic Vandermonde matrix to be independent. A stripe is one
  polynomial, evaluated at the points 0, 1, 2, and so on. So for every
  profile, data and loss of at most m shards, decoding returns the data.
- **Bε-tree** (`BeTreeModel`, `BeTreeSplit`, `BeTreeMessages`, `BeTreeContent`, `BeTreeState`,
  `BeTreeSteps`, `BeTreeCut`, `BeTreeQuery`, `BeTreeRounds`, `BeTree`, `BeTreeCount`, `KeyOrder`).
  The node arena with its buffers, recursive flushing, cascading splits and the split barrier.
  After every operation `get` and `scan` answer as a plain map would, all limits hold, all
  leaves are at one depth and the counters are exact; `flush_all` ends with nothing pending.
- **Content-defined chunker** (`Gf2Poly`, `Rabin`, `Chunker`). The table-driven rolling
  fingerprint is the polynomial of the last 48 bytes modulo x·POLY; each chunk ends in the one place
  where it must; inputs that share a suffix
  and a boundary where it starts share all later boundaries.
- **Write-ahead log, namespace, engine replay** (`Wal`, `NamespaceModel`, `NamespaceHistory`,
  `NamespaceSnapshots`, `NamespaceDiff`, `Namespace`, `Recovery`, `Engine`). Replaying any byte prefix
  of the log gives the batches wholly inside it; setting a path works exactly when the way is clear and
  changes nothing that does not pass through it; snapshots come back whatever happened since;
  old roots keep their meaning; time travel, the Merkle-pruned diff and crash recovery are exact.
- **Bitmap allocator** (`Bitmap`). First-fit scan over bits, bytes and bitmap blocks with its
  cursor, hint, metadata and reservation fallbacks: exactly the requested bits of a wholly free
  run, failure only if there is no run anywhere, and conservation of free count plus balance.
- **On-disk B+ tree** (`DiskModel`, `DiskSplit`, `DiskScan`, `DiskHistory`, `DiskPending`,
  `DiskTree`, `DiskHandles`, `DiskFloor`, `RootCells`). Nodes by
  block number, splits that keep the root in its block, path copying under a snapshot barrier,
  and the two leaf caches of each handle. The tree refines a sorted map; recorded roots read the
  same forever as long as no inner node is split under the barrier, with the exact condition for
  that; any schedule of calls through any number of handles answers as one map. Under a barrier the
  claims are about trees that always find their own root, and `RootCells` says exactly which do: not
  the per-inode extent trees, which share node type 3, nor two trees of one type.
- `Options` and `SetSizes` hold what several components share.

Conventions. Keys of both trees are reals; `KeyOrder` shows that byte strings in the order the
source compares them embed in the reals. Machine words and bytes are sets of one-bit positions,
except in `Gf256`, which uses bit-vectors. Hashes are structural, that is injective, and the
record codec is invertible; checksums are arbitrary functions. Clocks, random draws, lost packets,
allocated block numbers and the activity of trees of other types are parameters or arbitrary choices.

Where the code and its comments disagree the model follows the code: the field polynomial is 0x11D
(crates/lionfs-cluster/src/ecc.rs:51), fingerprints have degree up to 53
(crates/lionfs-cluster/src/cdc.rs:180), the "BFS" of crates/lionfs-cluster/src/btree.rs:391 is a
depth-first walk, and a missing floor does not mean the leftmost leaf
(crates/lionfs/src/btree/tree.rs:381-385; see `DiskFloor.FloorMissed`), and runs may start before the
bit asked for (crates/lionfs/src/allocator/bitmap.rs:214-217; see `Bitmap.HintedRunStartsEarly`).

## Model

| member | source | states |
|---|---|---|
| RaftSafety.ElectionSafety | crates/lionfs-cluster/src/raft.rs:144-297 | in every run, two servers that are leader in the same term, at any two moments, are the same server |
| RaftSafety.LogMatching | crates/lionfs-cluster/src/raft.rs:298-361 | in every run, two logs (of any servers, at any moments) with an entry of the same index and term agree on everything up to it |
| RaftSafety.ReplicationIsExact | crates/lionfs-cluster/src/raft.rs:199-361 | an append that passes the follower's checks leaves it with the log its sender held, as leader of that term, when the message was cut, through that log's last entry |
| RaftSafety.StepPreserves | crates/lionfs-cluster/src/raft.rs:236-388 | every step keeps the election and log invariants, never rewrites who won a term or what preceded an entry, and records new votes and entries only if the step casts or creates them |
| RaftSafety.RunIsSafe | crates/lionfs-cluster/src/raft.rs:471-495 | the invariants hold in every state of every run, with one growing history |
| RaftSafety.FollowerSide | crates/lionfs-cluster/src/raft.rs:298-361 | an AppendEntries never makes a leader, keeps the log good, and is answered once, to its sender |
| RaftSafety.StepCuts | crates/lionfs-cluster/src/raft.rs:199-212 | every AppendEntries in flight after a step was there before or is cut from its sender's present log |
| RaftVotes.GrantedExactly | crates/lionfs-cluster/src/raft.rs:239-265 | in every run a vote is granted if and only if the request is of no earlier term, the vote of that term is free, and the voter's log is no later than the candidate's when it stood: no entry of a later term than the candidate's last, and a prefix of the candidate's log if both end in the same term |
| RaftVotes.LeaderIsUpToDate | crates/lionfs-cluster/src/raft.rs:239-297 | in every run the log of every leader is, in that sense, no earlier than the logs of a quorum, each at the moment it gave its vote |
| RaftVotes.ComparisonIsRight | crates/lionfs-cluster/src/raft.rs:248-250 | comparing last term, then last index, decides that relation between whole logs |
| RaftVotes.StepOrders | crates/lionfs-cluster/src/raft.rs:298-417 | every step keeps terms from falling along logs, entries of one term on one line, and all of them in their leader's log |
| RaftVotes.LeaderAppends | crates/lionfs-cluster/src/raft.rs:298-417 | a leader in office only ever adds to its log |
| RaftVotes.Asked | crates/lionfs-cluster/src/raft.rs:149-168 | every request in flight was sent by a server that stood for election and describes the log it had then |
| RaftVotes.Campaign | crates/lionfs-cluster/src/raft.rs:149-297 | a candidate or leader has the log it stood with, plus what it added in office |
| RaftReplies.EveryPeerIsAsked | crates/lionfs-cluster/src/raft.rs:156-168 | every peer is asked for its vote with the candidate's last index and term |
| RaftReplies.EveryPeerIsSent | crates/lionfs-cluster/src/raft.rs:187-192 | a broadcast reaches every peer |
| RaftReplies.AppendIsSuffix | crates/lionfs-cluster/src/raft.rs:199-212 | the message holds the leader's log from the peer's next index to its end, and index and term of the entry before |
| RaftReplies.TallyDecides | crates/lionfs-cluster/src/raft.rs:275-287 | a granted reply of the current term adds one vote, and the candidate takes office exactly with a majority |
| RaftReplies.CandidatesLackMajority | crates/lionfs-cluster/src/raft.rs:149-297 | in every run a server that is still a candidate has counted no majority |
| RaftReplies.AcceptedExactly | crates/lionfs-cluster/src/raft.rs:298-361 | in every run an append is accepted if and only if it is of no earlier term and the follower's log agrees with the leader's, as it was when the message was cut, up to where the message begins; the one answer says so and how long the log is now |
| RaftReplies.RejectionBacksOff | crates/lionfs-cluster/src/raft.rs:378-384 | a rejection of the current term moves the next index back by one and sends the log again from there |
| RaftReplies.AcceptanceIsRecorded | crates/lionfs-cluster/src/raft.rs:374-377 | an acceptance raises what the peer is known to hold, never lowers it, and then commits the greatest index that may be committed |
| RaftReplies.CommitsTheGreatest | crates/lionfs-cluster/src/raft.rs:392-407 | the commit index moves exactly to the greatest entry of the leader's own term that a majority holds |
| RaftReplies.CommitMoves | crates/lionfs-cluster/src/raft.rs:351-354 | in every run a commit index moves only within its log: to an entry of the leader's own term held by a majority, or to the smaller of the leader's commit index and the follower's last index |
| RaftElection.TermIsOpen | crates/lionfs-cluster/src/raft.rs:275-296 | a candidate whose counted votes reach a quorum stands in a term nobody has won |
| RaftElection.QuorumsIntersect | crates/lionfs-cluster/src/raft.rs:124-126 | two quorums share a server |
| RaftElection.GrantPreserves | crates/lionfs-cluster/src/raft.rs:239-265 | granting a vote turns the one request token into the one reply token |
| RaftElection.CountPreserves | crates/lionfs-cluster/src/raft.rs:275-276 | counting a granted reply turns it into one more distinct counted voter, so the bare counter counts voters |
| RaftElection.ElectPreserves | crates/lionfs-cluster/src/raft.rs:277-296 | taking office with a quorum makes the server the only winner of its term |
| RaftElection.StandPreserves | crates/lionfs-cluster/src/raft.rs:149-168 | standing for the next term creates one self-vote and at most one request per peer |
| RaftElection.VoteRequestTokens | crates/lionfs-cluster/src/raft.rs:156-168 | a broadcast of vote requests holds at most one request per voter, none to itself |
| RaftElection.LosePreserves | crates/lionfs-cluster/src/raft.rs:463-468 | losing any packet keeps the invariant |
| RaftLog.AppendReplicates | crates/lionfs-cluster/src/raft.rs:317-350 | after a passed check the follower holds the sender's whole log through its last entry, and a good log in all |
| RaftLog.ConsistentMeansEqualPrefix | crates/lionfs-cluster/src/raft.rs:318-327 | the check of one entry finds all of the sender's predecessors |
| RaftLog.MergeAgrees | crates/lionfs-cluster/src/raft.rs:336-350 | merging keeps a prefix that already agrees and ends with the sent entries |
| RaftLog.BuildAppendIsGood | crates/lionfs-cluster/src/raft.rs:199-212 | what a leader sends, put behind the entries it refers to, is its own whole log |
| RaftLog.ProposePreserves | crates/lionfs-cluster/src/raft.rs:410-417 | a leader's new entry is one nobody has created before |
| RaftModel.Committed | crates/lionfs-cluster/src/raft.rs:392-407 | the greatest index above the old commit index that is of the current term and held by a quorum, else the old index |
| RaftModel.Position | crates/lionfs-cluster/src/raft.rs:321-324 | the first position with a given index, or none |
| RaftModel.SetPeers | crates/lionfs-cluster/src/raft.rs:115-120 | every peer from a number on has the value, every other record is as it was |
| RaftModel.PeersRecorded | crates/lionfs-cluster/src/raft.rs:115-120 | exactly the old records and those peers are recorded |
| RaftNetwork.Node.constructor | crates/lionfs-cluster/src/raft.rs:97-122 | the initial server of the model, with its timers |
| RaftNetwork.Node.Tick | crates/lionfs-cluster/src/raft.rs:144-197 | performs exactly the timeout or heartbeat step of the model when its timer is due, nothing else otherwise |
| RaftNetwork.Node.RequestVotes | crates/lionfs-cluster/src/raft.rs:156-168 | one request to every peer, in order |
| RaftNetwork.Node.AppendToAll | crates/lionfs-cluster/src/raft.rs:187-192 | one append to every peer, in order |
| RaftNetwork.Node.AppendFor | crates/lionfs-cluster/src/raft.rs:199-212 | the message for one peer: the entries from its next index on and what precedes them |
| RaftNetwork.Node.TakeOffice | crates/lionfs-cluster/src/raft.rs:278-287 | leader, with every peer assumed to hold the whole log |
| RaftNetwork.Node.BecomeFollower | crates/lionfs-cluster/src/raft.rs:218-229 | adopts a higher term as the model does and says whether it did |
| RaftNetwork.Node.HandleRequestVote | crates/lionfs-cluster/src/raft.rs:239-265 | performs the model's vote decision, which grants exactly as RaftVotes.GrantedExactly says |
| RaftNetwork.Node.HandleVoteReply | crates/lionfs-cluster/src/raft.rs:266-297 | performs the model's counting and taking of office |
| RaftNetwork.Node.HandleAppend | crates/lionfs-cluster/src/raft.rs:298-361 | performs the model's follower side of replication |
| RaftNetwork.Node.MergeEntries | crates/lionfs-cluster/src/raft.rs:336-350 | the entry loop computes the model's merge |
| RaftNetwork.Node.HandleAppendReply | crates/lionfs-cluster/src/raft.rs:362-385 | performs the model's leader side, back-off included |
| RaftNetwork.Node.AdvanceCommitIndex | crates/lionfs-cluster/src/raft.rs:392-407 | the scan loop reaches the greatest committable index |
| RaftNetwork.Node.HandleMessage | crates/lionfs-cluster/src/raft.rs:236-388 | dispatches to the model's handler for every kind of message |
| RaftNetwork.Node.AppendCommand | crates/lionfs-cluster/src/raft.rs:410-417 | appends one entry of the current term and advances the commit index |
| RaftNetwork.Network.constructor | crates/lionfs-cluster/src/raft.rs:434-441 | the initial cluster |
| RaftNetwork.Network.SendAll | crates/lionfs-cluster/src/raft.rs:463-468 | sending is a series of losses of some of the packets handed over |
| RaftNetwork.Network.Tick | crates/lionfs-cluster/src/raft.rs:471-478 | every server is ticked once; the network stays in a state of some run |
| RaftNetwork.Network.TickOne | crates/lionfs-cluster/src/raft.rs:471-478 | one server ticked and its messages sent is a series of steps of the model |
| RaftNetwork.Network.Step | crates/lionfs-cluster/src/raft.rs:482-495 | every packet in flight is delivered exactly once, replies wait; the network stays in a state of some run |
| RaftNetwork.Network.DeliverOne | crates/lionfs-cluster/src/raft.rs:488-493 | delivering the next packet of the batch is one delivery step and some losses |
| RaftNetwork.Network.Submit | crates/lionfs-cluster/src/raft.rs:507-514 | only a leader accepts a command, and then its log alone changes |
| RaftNetwork.Network.OneLeaderPerTerm | crates/lionfs-cluster/src/raft.rs:516-522 | no two servers of a network object lead the same term |
| Gf256.MulAssoc | crates/lionfs-cluster/src/ecc.rs:65-71 | multiplication modulo 0x11D is associative |
| Gf256.MulComm | crates/lionfs-cluster/src/ecc.rs:65-71 | and commutative |
| Gf256.MulAddRight | crates/lionfs-cluster/src/ecc.rs:65-71 | and distributes over xor |
| Gf256.MulInv | crates/lionfs-cluster/src/ecc.rs:89-92 | every nonzero byte has an inverse |
| Gf256.PowersDiffer | crates/lionfs-cluster/src/ecc.rs:44-54 | the first 255 powers of 2 differ, so 2 generates the field |
| GfTables.BuildTables | crates/lionfs-cluster/src/ecc.rs:40-62 | the doubling loop fills exp with the powers of 2 and log with their exponents |
| GfTables.LogLookup | crates/lionfs-cluster/src/ecc.rs:65-92 | the table names the logarithm of every nonzero byte |
| GaussJordan.Eliminate | crates/lionfs-cluster/src/ecc.rs:272-276 | adds a multiple of the pivot row |
| GaussJordan.ScaleRow | crates/lionfs-cluster/src/ecc.rs:316-320 | every entry times the factor |
| GaussJordan.ClearColumn | crates/lionfs-cluster/src/ecc.rs:322-335 | every other row loses its multiple of the pivot row |
| GaussJordan.FindPivot | crates/lionfs-cluster/src/ecc.rs:306-313 | the first row with a nonzero entry at or below the diagonal, or proof there is none |
| GaussJordan.Pivot | crates/lionfs-cluster/src/ecc.rs:314-335 | swap, scale and clear keep the solutions and make one more unit column |
| GaussJordan.ReducedIsInverse | crates/lionfs-cluster/src/ecc.rs:288-339 | soundness: the right half is an inverse on both sides |
| GaussJordan.NoPivotMeansSingular | crates/lionfs-cluster/src/ecc.rs:306-313 | completeness: a column without pivot means a nonzero vector is sent to zero |
| GaussJordan.InvertMatrix | crates/lionfs-cluster/src/ecc.rs:288-339 | an inverse if and only if the matrix is square, not empty and sends only zero to zero |
| Vandermonde.PowerRowsIndependent | crates/lionfs-cluster/src/ecc.rs:126-148 | rows of powers at k distinct points send only zero to zero |
| Vandermonde.TooManyRoots | crates/lionfs-cluster/src/ecc.rs:126-148 | a polynomial with as many roots as coefficients is zero |
| ReedSolomon.VandermondeMatrix | crates/lionfs-cluster/src/ecc.rs:126-133 | row r holds the powers of r |
| ReedSolomon.Multiply | crates/lionfs-cluster/src/ecc.rs:139-148 | the matrix product |
| ReedSolomon.MulTable | crates/lionfs-cluster/src/ecc.rs:279-285 | entry x is the coefficient times x, for every byte |
| ReedSolomon.RowTables | crates/lionfs-cluster/src/ecc.rs:238-240 | one such table per coefficient of a row |
| ReedSolomon.ParityTables | crates/lionfs-cluster/src/ecc.rs:150-157 | one such row of tables per parity row |
| ReedSolomon.EncodeMatrix | crates/lionfs-cluster/src/ecc.rs:124-148 | the first k rows reproduce the data, any k rows are independent, and row i evaluates one polynomial at point i |
| ReedSolomon.NewCodec | crates/lionfs-cluster/src/ecc.rs:120-160 | rejects exactly the bad profiles; otherwise never meets a singular matrix, and its matrix is as EncodeMatrix says |
| ReedSolomon.StripeIsPolynomial | crates/lionfs-cluster/src/ecc.rs:126-148 | at every byte position one polynomial with k coefficients has the byte of shard i as its value at point i, data and parity alike |
| ReedSolomon.ParityExtendsData | crates/lionfs-cluster/src/ecc.rs:126-148 | and any such polynomial through the data is that one, so the parity bytes are determined by the points 0, 1, 2, ... |
| ReedSolomon.SamePolynomial | crates/lionfs-cluster/src/ecc.rs:126-148 | two polynomials with k coefficients that agree at the first k points are the same |
| ReedSolomon.XorThroughTable | crates/lionfs-cluster/src/ecc.rs:187-189 | adds a multiple of one shard to another |
| ReedSolomon.Encode | crates/lionfs-cluster/src/ecc.rs:168-193 | the parity shards, or the source's error for a wrong count, or for the first shard of another length with both lengths |
| ReedSolomon.FirstMismatch | crates/lionfs-cluster/src/ecc.rs:173-177 | the first shard of another length, or none |
| ReedSolomon.AddColumn | crates/lionfs-cluster/src/ecc.rs:184-191 | every parity row gains its multiple of one data column |
| ReedSolomon.ApplyMatrix | crates/lionfs-cluster/src/ecc.rs:234-247 | each row combined with the shards |
| ReedSolomon.ShardsDetermineData | crates/lionfs-cluster/src/ecc.rs:199-249 | two stripes that agree on any k shards hold the same data |
| ReedSolomon.Decode | crates/lionfs-cluster/src/ecc.rs:199-249 | the source's errors exactly when due, lengths included; otherwise data whose shards are the survivors used, never a singular matrix |
| ReedSolomon.Solve | crates/lionfs-cluster/src/ecc.rs:224-247 | the data whose shards at k given positions are the given ones; never singular |
| ReedSolomon.DecodeStripe | crates/lionfs-cluster/src/ecc.rs:199-249 | survivors of a stripe decode to that stripe's data |
| ReedSolomon.StripeSurvivesLosses | crates/lionfs-cluster/src/ecc.rs:120-249 | for every profile, equal-length data and loss of at most m shards, encode, lose, decode returns the data |
| ReedSolomon.Reconstruct | crates/lionfs-cluster/src/ecc.rs:254-267 | a lost shard, data or parity, is rebuilt exactly; other requests are refused |
| BeTree.BeTree.constructor | crates/lionfs-cluster/src/btree.rs:138-151 | an empty map in one leaf |
| BeTree.BeTree.Insert | crates/lionfs-cluster/src/btree.rs:218-221 | the map gets the value for the key, whatever is buffered, and every invariant is kept |
| BeTree.BeTree.Delete | crates/lionfs-cluster/src/btree.rs:224-227 | the map loses the key, and every invariant is kept |
| BeTree.BeTree.Enqueue | crates/lionfs-cluster/src/btree.rs:234-254 | an operation takes effect on the map at once, flushing a full root first |
| BeTree.BeTree.EnqueueAtLeaf | crates/lionfs-cluster/src/btree.rs:235-241 | in a tree that is one leaf the operation is applied at once |
| BeTree.BeTree.PushAtRoot | crates/lionfs-cluster/src/btree.rs:251-253 | the newest message is appended to a root buffer with room |
| BeTree.BeTree.Get | crates/lionfs-cluster/src/btree.rs:258-297 | exactly what the map holds for the key |
| BeTree.BeTree.Scan | crates/lionfs-cluster/src/btree.rs:301-334 | ascending, and exactly the map's entries in the closed range |
| BeTree.BeTree.CollectRange | crates/lionfs-cluster/src/btree.rs:336-365 | all messages of the range below a node, and every leaf that can hold a key of it |
| BeTree.BeTree.MergeLeaves | crates/lionfs-cluster/src/btree.rs:306-316 | what the visited leaves hold in the range, and nothing outside it |
| BeTree.BeTree.Descend | crates/lionfs-cluster/src/btree.rs:258-280 | the leaf of a key, and exactly the pending messages for it |
| BeTree.BeTree.Route | crates/lionfs-cluster/src/btree.rs:189-204 | the last child whose bound is not above the key |
| BeTree.BeTree.FlushAll | crates/lionfs-cluster/src/btree.rs:376-389 | the map is unchanged; nothing is pending if the tree was at most 129 high, and always with fanout 3 or more below 2^129 nodes |
| BeTree.BeTree.FlushRound | crates/lionfs-cluster/src/btree.rs:377-387 | one round empties the highest level that held messages, although it creates new siblings |
| BeTree.BeTree.CollectInternalIds | crates/lionfs-cluster/src/btree.rs:392-407 | every inner node, each before its descendants |
| BeTree.BeTree.Height | crates/lionfs-cluster/src/btree.rs:410-418 | the level of the root plus one |
| BeTree.BeTree.FlushNode | crates/lionfs-cluster/src/btree.rs:464-505 | the node's messages have moved one level down; content, order and limits hold except for nodes being drained |
| BeTree.BeTree.DrainOne | crates/lionfs-cluster/src/btree.rs:475-500 | one message goes to the child responsible for it, which is flushed first when full |
| BeTree.BeTree.Land | crates/lionfs-cluster/src/btree.rs:477-479 | a message reaches the leaf below, which is split when overfull |
| BeTree.BeTree.Absorb | crates/lionfs-cluster/src/btree.rs:478-478 | the oldest message for the key is applied and gone; content is kept |
| BeTree.BeTree.Push | crates/lionfs-cluster/src/btree.rs:492-498 | a message moves to the end of the buffer below, order kept |
| BeTree.BeTree.BeginDrain | crates/lionfs-cluster/src/btree.rs:464-474 | the buffer is taken in hand and the node becomes the barrier |
| BeTree.BeTree.EndDrain | crates/lionfs-cluster/src/btree.rs:501-501 | the previous barrier is back |
| BeTree.BeTree.ApplyToLeaf | crates/lionfs-cluster/src/btree.rs:507-526 | the leaf's entries after one operation, and the counter with them |
| BeTree.BeTree.MaybeSplitLeaf | crates/lionfs-cluster/src/btree.rs:530-573 | an overfull leaf is divided, and no node but those being drained is left too large |
| BeTree.BeTree.HalveLeaf | crates/lionfs-cluster/src/btree.rs:538-549 | the upper entries go to a new leaf, whose first key is the bound |
| BeTree.BeTree.HalveInternal | crates/lionfs-cluster/src/btree.rs:588-625 | the upper children and the messages from the bound on go to a new node, which becomes their parent |
| BeTree.BeTree.Attach | crates/lionfs-cluster/src/btree.rs:627-649 | the right half is linked below the parent or below a new root |
| BeTree.BeTree.Divide | crates/lionfs-cluster/src/btree.rs:588-649 | an overfull node is divided and linked, keeping structure, messages and content |
| BeTree.BeTree.MaybeSplitFrom | crates/lionfs-cluster/src/btree.rs:577-651 | an overfull node that is not the barrier is split once, its ancestors as needed; only the new right half may still be too large |
| BeTree.BeTree.RepairChain | crates/lionfs-cluster/src/btree.rs:655-659 | splitting along the new siblings ends with every node within its limit |
| BeTree.BeTree.InsertChild | crates/lionfs-cluster/src/btree.rs:668-679 | the child is placed by its bound, all else is unchanged |
| BeTree.BeTree.SetParent | crates/lionfs-cluster/src/btree.rs:661-666 | only the parent pointer of that node changes |
| BeTree.BeTree.WellShaped | crates/lionfs-cluster/src/btree.rs:895-928 | between operations: fanout, buffer and leaf limits, strictly sorted bounds, right parent pointers, exact counters |
| BeTree.BeTree.LeavesAtOneDepth | crates/lionfs-cluster/src/btree.rs:895-928 | every path from the root to a leaf has the same length |
| BeTreeCount.LiveEntriesExact | crates/lionfs-cluster/src/btree.rs:157-160 | once nothing is pending, the counter of live entries is the number of keys |
| BeTreeRounds.HeightIsLogarithmic | crates/lionfs-cluster/src/btree.rs:577-651 | when every inner node branches, as with fanout 3 or more it does, a root at level h means at least 2^h nodes |
| BeTreeQuery.SortBySeq | crates/lionfs-cluster/src/btree.rs:286-286 | the same messages in order of sequence number |
| BeTreeQuery.ForKey | crates/lionfs-cluster/src/btree.rs:264-268 | exactly the messages of a buffer for one key |
| BeTreeQuery.Replay | crates/lionfs-cluster/src/btree.rs:317-329 | for each key the last message of the range decides; other keys are untouched |
| KeyOrder.EmbedKeepsOrder | crates/lionfs-cluster/src/btree.rs:189-204 | byte strings compare as their images in the reals do |
| Rabin.ModPoly | crates/lionfs-cluster/src/cdc.rs:179-185 | the residue modulo x·POLY, of degree below 54 |
| Rabin.PolyMulMod | crates/lionfs-cluster/src/cdc.rs:188-198 | congruent to the product of the two polynomials, reduced |
| Rabin.PowX | crates/lionfs-cluster/src/cdc.rs:201-214 | congruent to x^e, reduced |
| Chunker.BuildOutTable | crates/lionfs-cluster/src/cdc.rs:88-93 | entry b is congruent to b times x^384, the contribution of the byte that leaves the window |
| Chunker.BuildSpillTable | crates/lionfs-cluster/src/cdc.rs:94-97 | entry h is congruent to h times x^53, for all nine-bit spills |
| Chunker.SpillIndex | crates/lionfs-cluster/src/cdc.rs:125-132 | the spill of a shifted fingerprint always indexes the 512-entry table |
| Chunker.RollIsRight | crates/lionfs-cluster/src/cdc.rs:125-132 | one rolling step turns the fingerprint of a window into that of the moved window |
| Chunker.Chunker.constructor | crates/lionfs-cluster/src/cdc.rs:98-106 | a chunker with an empty window |
| Chunker.Chunker.New | crates/lionfs-cluster/src/cdc.rs:81-107 | accepts exactly the valid configurations |
| Chunker.Chunker.Reset | crates/lionfs-cluster/src/cdc.rs:109-113 | the window is all zeros again, and the fingerprint is its fingerprint |
| Chunker.Chunker.PushByte | crates/lionfs-cluster/src/cdc.rs:117-133 | the window moves by one byte; the fingerprint stays the residue of the window's polynomial |
| Chunker.Chunker.BoundaryTest | crates/lionfs-cluster/src/cdc.rs:136-138 | the mask test depends on the last 48 bytes alone |
| Chunker.BoundaryIsMultiple | crates/lionfs-cluster/src/cdc.rs:136-138 | a boundary is where the fingerprint of the last 48 bytes, as a number, is a multiple of the average size |
| Chunker.Chunker.FindEnd | crates/lionfs-cluster/src/cdc.rs:148-158 | the inner loop stops at the first boundary at least min away, but exactly max away if there is none before, and at the end of the data at the latest |
| Chunker.Chunker.ChunkBoundaries | crates/lionfs-cluster/src/cdc.rs:142-163 | the offsets run from 0 to the end of the data, and each chunk ends where FindEnd says |
| Chunker.Chunker.Chunk | crates/lionfs-cluster/src/cdc.rs:166-171 | the chunks are the pieces between neighbouring boundaries, and put together they are the data |
| Chunker.Slice | crates/lionfs-cluster/src/cdc.rs:166-171 | the piece between each two neighbouring offsets |
| Chunker.FirstBoundary | crates/lionfs-cluster/src/cdc.rs:148-158 | a chunk that ends before the data does and not at an admissible boundary is exactly max long, and no admissible boundary lies inside a chunk |
| Chunker.AllEndsRight | crates/lionfs-cluster/src/cdc.rs:142-163 | this holds of every chunk of every input |
| Chunker.OnlyEnds | crates/lionfs-cluster/src/cdc.rs:142-163 | and the boundaries computed are the only ones from 0 to the end of the data of which it holds |
| Chunker.OneRightEnd | crates/lionfs-cluster/src/cdc.rs:148-158 | a chunk can end in one place only |
| Chunker.ChunkSizes | crates/lionfs-cluster/src/cdc.rs:142-163 | every chunk is between min and max long; only the last may be shorter |
| Chunker.EndsAtEnd | crates/lionfs-cluster/src/cdc.rs:142-163 | the last boundary is the end of the data |
| Chunker.ChunksReassemble | crates/lionfs-cluster/src/cdc.rs:166-171 | the pieces between boundaries put together are the data |
| Chunker.Resynchronise | crates/lionfs-cluster/src/cdc.rs:142-163 | inputs with a common suffix and a boundary at its start have the same later boundaries, up to the shift |
| Chunker.PowerOfTwo | crates/lionfs-cluster/src/cdc.rs:82-84 | the test of the average size accepts exactly the powers of two |
| Wal.Wal.constructor | crates/lionfs-cluster/src/wal.rs:92-100 | an empty log |
| Wal.Wal.CommitBatch | crates/lionfs-cluster/src/wal.rs:122-145 | the file grows by the frames of the batch and its commit marker, with one sync |
| Wal.Wal.Reset | crates/lionfs-cluster/src/wal.rs:192-197 | nothing is committed any more and numbering starts over |
| Wal.Replay | crates/lionfs-cluster/src/wal.rs:152-189 | the position-advancing loop computes the committed batches of the bytes |
| Wal.PrefixReplay | crates/lionfs-cluster/src/wal.rs:152-189 | replaying any byte prefix gives exactly the batches wholly inside it, for any checksum |
| Wal.WholeBatches | crates/lionfs-cluster/src/wal.rs:152-189 | for every cut there is one number of whole batches |
| Wal.TornFrame | crates/lionfs-cluster/src/wal.rs:162-174 | a frame cut short is never taken for a frame, whatever the checksum |
| Wal.SoundFrame | crates/lionfs-cluster/src/wal.rs:162-174 | a complete frame is taken exactly when its checksum is that of its body and the body decodes |
| Wal.DamageStopsReplay | crates/lionfs-cluster/src/wal.rs:162-189 | after a frame with a wrong checksum nothing more is replayed; the batches before it are |
| Wal.FirstByteDecides | crates/lionfs-cluster/src/wal.rs:122-145 | length and checksum fields are most significant byte first |
| Wal.RoundTrip | crates/lionfs-cluster/src/wal.rs:122-189 | replay returns the committed batches if and only if none carries a commit marker of its own |
| Wal.InnerCommitSplits | crates/lionfs-cluster/src/wal.rs:175-183 | a batch with a commit marker of its own comes back as two transactions |
| NamespaceModel.SetPathEffect | crates/lionfs-cluster/src/dag.rs:273-334 | the path resolves to the new head, paths neither above nor below it resolve as before, and so does every earlier root |
| NamespaceModel.RebuiltResolves | crates/lionfs-cluster/src/dag.rs:293-334 | the rebuilt directory resolves the path to the head |
| NamespaceModel.RebuiltFrame | crates/lionfs-cluster/src/dag.rs:293-334 | and every diverging path as the old one did |
| NamespaceModel.DivergeMeaning | crates/lionfs-cluster/src/dag.rs:293-334 | diverging paths are those of which neither is a prefix of the other |
| NamespaceModel.ResolveStable | crates/lionfs-cluster/src/dag.rs:234-250 | later objects never change how any root resolves |
| NamespaceHistory.TimeTravel | crates/lionfs-cluster/src/dag.rs:375-411 | with non-decreasing times, resolving as of t gives what the path resolved to after the last write at or before t |
| NamespaceHistory.BeforeTheStart | crates/lionfs-cluster/src/dag.rs:375-411 | before the first version the lookup fails as the source does |
| NamespaceHistory.SetPathClosed | crates/lionfs-cluster/src/dag.rs:273-334 | setting paths to stored heads never leaves a reference without its object |
| NamespaceHistory.RootsKeep | crates/lionfs-cluster/src/dag.rs:339-357 | the root and the roots of all snapshots stay stored directories |
| NamespaceHistory.SetPathSucceeds | crates/lionfs-cluster/src/dag.rs:273-334 | a path can be set if and only if it is not empty and no proper prefix names anything but a directory, nor, without permission to create, nothing; a call that fails leaves the state as it was, with the source's error |
| NamespaceHistory.RebuildSucceeds | crates/lionfs-cluster/src/dag.rs:293-334 | the same below any directory |
| NamespaceHistory.ResolvesIsClear | crates/lionfs-cluster/src/dag.rs:304-312 | so a path that resolves can be set |
| NamespaceHistory.RootSucceeds | crates/lionfs-cluster/src/dag.rs:214-227 | the new root has the old one as its parent, the time of the write, and a clock one further for the writer only |
| NamespaceHistory.WalkBackFinds | crates/lionfs-cluster/src/dag.rs:390-408 | walking back answers with the first version along first parents that is not later than t, and only if it is no merge |
| NamespaceSnapshots.SnapshotComesBack | crates/lionfs-cluster/src/dag.rs:339-357 | take a snapshot, do anything but take another of that name, go back: the root is the one it was, and every path resolves as it did |
| NamespaceSnapshots.NeverTaken | crates/lionfs-cluster/src/dag.rs:347-349 | a name never taken cannot be gone back to, whatever was done |
| NamespaceSnapshots.PerformKeeps | crates/lionfs-cluster/src/dag.rs:269-357 | every operation, failed ones included, only adds objects and changes no snapshot but the one it takes |
| NamespaceSnapshots.RestoreRewritesThePast | crates/lionfs-cluster/src/dag.rs:350-411 | after going back, lookups as of any time from the restored root's own on find the restored tree; earlier ones are as before |
| NamespaceHistory.ClosedResolves | crates/lionfs-cluster/src/dag.rs:234-250 | so resolving a stored root never misses an object |
| NamespaceDiff.PruneLosesNothing | crates/lionfs-cluster/src/dag.rs:427-463 | the walk that skips equal hashes gives the same output as the one that does not |
| NamespaceDiff.EmptyMeansEqual | crates/lionfs-cluster/src/dag.rs:427-463 | the full walk succeeds, and is empty exactly when both roots denote the same tree of names, kinds and contents |
| NamespaceDiff.EntriesMean | crates/lionfs-cluster/src/dag.rs:427-463 | removed, added or modified at a path: there on one side only, inside a directory of both, or different things that are not both directories |
| NamespaceDiff.DiffersBelow | crates/lionfs-cluster/src/dag.rs:445-456 | two directories differ below a name as its two subtrees do, or at the name itself |
| NamespaceDiff.DiffIsExact | crates/lionfs-cluster/src/dag.rs:421-463 | the pruned diff is the full one; an entry is in it exactly when the two trees differ so at that path; it is empty exactly when they are equal |
| Namespace.Namespace.constructor | crates/lionfs-cluster/src/dag.rs:163-190 | a namespace with an empty root directory and one version |
| Namespace.Namespace.Put | crates/lionfs-cluster/src/dag.rs:63-70 | stores a node exactly when its hash checks out |
| Namespace.Namespace.Children | crates/lionfs-cluster/src/dag.rs:202-211 | the children of a directory, or the source's error |
| Namespace.Namespace.NewDirNodeAt | crates/lionfs-cluster/src/dag.rs:214-227 | stores a directory node and its child map, and remembers both as created |
| Namespace.Namespace.SetPathRecursive | crates/lionfs-cluster/src/dag.rs:293-334 | succeeds if and only if the way is clear; then the new directory resolves the path to the head, otherwise nothing changes |
| Namespace.Namespace.SetPathInner | crates/lionfs-cluster/src/dag.rs:273-288 | the same from the root, which is moved and entered in the chain |
| Namespace.Namespace.SetPathAt | crates/lionfs-cluster/src/dag.rs:269-288 | succeeds if and only if the path is not empty and no proper prefix names anything but a directory; the path then resolves to the head and nothing stored is lost; otherwise nothing changes |
| Namespace.Namespace.SetPathTicking | crates/lionfs-cluster/src/dag.rs:255-265 | succeeds on the same condition, at the next tick of the writer's clock |
| Namespace.Namespace.ResolvePath | crates/lionfs-cluster/src/dag.rs:234-250 | the walk computes the resolution, errors included |
| Namespace.Namespace.ResolvePathAt | crates/lionfs-cluster/src/dag.rs:375-411 | newest root at or before t, then back along first parents |
| Namespace.Namespace.TakeSnapshot | crates/lionfs-cluster/src/dag.rs:339-343 | the name stands for the present root |
| Namespace.Namespace.RestoreSnapshot | crates/lionfs-cluster/src/dag.rs:347-357 | succeeds exactly when the name is known; the root is then the one the name stands for, entered in the chain with its own time; otherwise nothing changes |
| Namespace.Namespace.DrainCreated | crates/lionfs-cluster/src/dag.rs:496-498 | hands over what was created and forgets it |
| Namespace.Namespace.RegisterDir | crates/lionfs-cluster/src/dag.rs:501-503 | records a child map |
| Namespace.Namespace.SetRootFromRecovery | crates/lionfs-cluster/src/dag.rs:506-511 | moves the root; extends the chain only if it moved |
| Namespace.Namespace.SnapshotFromRecovery | crates/lionfs-cluster/src/dag.rs:514-516 | records a snapshot's root |
| Recovery.ReplayTwice | crates/lionfs-cluster/src/engine.rs:504-565 | replaying the same records twice gives the same as once |
| Recovery.WriteReplays | crates/lionfs-cluster/src/engine.rs:718-733 | replaying a write's records on the state before it gives the state after it |
| Recovery.WriteMirrors | crates/lionfs-cluster/src/engine.rs:718-733 | also when failed calls have left nodes behind that nothing refers to and the log does not have |
| Recovery.MirrorResolves | crates/lionfs-cluster/src/engine.rs:504-565 | a recovered state without such nodes resolves every path, under the root and every snapshot, as the live one does |
| Recovery.WriteTravels | crates/lionfs-cluster/src/engine.rs:556-557 | replaying a write enters its root in the chain, as the write did |
| Recovery.RestoreTravels | crates/lionfs-cluster/src/engine.rs:556-557 | replaying a restore leaves out only an entry that makes no difference to any lookup by time |
| Engine.Engine.constructor | crates/lionfs-cluster/src/engine.rs:259-310 | a fresh namespace, an empty log and a vector clock incremented once |
| Engine.Engine.Log | crates/lionfs-cluster/src/engine.rs:742-743 | one batch whose replay leads from the last recorded state to one that mirrors the present state, chain included |
| Engine.Engine.Install | crates/lionfs-cluster/src/engine.rs:718-743 | succeeds if and only if the path can be set; then the path names the node, paths neither above nor below keep their meaning, and everything created is logged; otherwise nothing is logged, no path changes and the engine stays sound |
| Engine.InstalledOk | crates/lionfs-cluster/src/engine.rs:718-733 | installing a node where the way is clear: the path names it, diverging paths are as before, and the chain has one more entry |
| Engine.FailureLeaves | crates/lionfs-cluster/src/engine.rs:718-722 | a node stored for a path that cannot be set changes the meaning of no path |
| Engine.BuildRecords | crates/lionfs-cluster/src/engine.rs:718-733 | the node, then every created node with its child map, then the new head |
| Engine.Engine.Put | crates/lionfs-cluster/src/engine.rs:707-753 | succeeds if and only if the path is not empty and no proper prefix names anything but a directory; a new file version with the right parent and clock is then installed and logged; otherwise nothing is logged and no path changes |
| Engine.Engine.Delete | crates/lionfs-cluster/src/engine.rs:962-1029 | succeeds if and only if the path is not empty and names something; a tombstone of that is then installed and logged; otherwise nothing is logged and no path changes |
| Engine.Engine.Snapshot | crates/lionfs-cluster/src/engine.rs:1119-1128 | the name stands for the present root, and this is logged |
| Engine.Engine.Restore | crates/lionfs-cluster/src/engine.rs:1130-1138 | succeeds exactly when the snapshot is known; the root is then the one that was taken, and this is logged; otherwise nothing changes |
| Engine.Engine.Checkpoint | crates/lionfs-cluster/src/engine.rs:471-494 | the present state is the new starting point of replay |
| Engine.Engine.CrashRecovery | crates/lionfs-cluster/src/engine.rs:504-565 | cut the log at any byte: replay on the checkpoint gives the state after exactly the wholly written batches, replaying again changes nothing, and lookups by time choose the same roots as they did then |
| Engine.ReplayWal | crates/lionfs-cluster/src/engine.rs:504-514 | applies the committed records in order, fails exactly when one of them does, says whether there were any, and rebuilds the chain of roots |
| Engine.ApplyRecord | crates/lionfs-cluster/src/engine.rs:516-565 | the effect of one record on objects, root, snapshots and chain |
| Bitmap.ScanByte | crates/lionfs/src/allocator/bitmap.rs:253-279 | the bit loop finds the first run or extends what is known |
| Bitmap.ScanBlock | crates/lionfs/src/allocator/bitmap.rs:243-282 | the byte loop does, skipping full bytes |
| Bitmap.TxContext.ScanFreeRun | crates/lionfs/src/allocator/bitmap.rs:218-288 | the first run of the wanted length from the start bit on, with exactly the marked bits set, or proof there is none |
| Bitmap.TxContext.ModifyBlocks | crates/lionfs/src/allocator/bitmap.rs:348-388 | exactly the bits of the range change, across bitmap blocks |
| Bitmap.TxContext.AllocateExtents | crates/lionfs/src/allocator/bitmap.rs:11-51 | succeeds if and only if the group has a free run of that length; takes exactly the first run from the cursor, or else from the start; free count plus balance is kept |
| Bitmap.TxContext.AllocateExtentsHinted | crates/lionfs/src/allocator/bitmap.rs:61-100 | the same, scanning from behind the hint, then from the cursor, then from the start |
| Bitmap.TxContext.AllocateExtentsMeta | crates/lionfs/src/allocator/bitmap.rs:109-148 | the same, scanning from the end zone, then from the upper half, then from the start, with its high-water mark |
| Bitmap.TxContext.AllocateExtentsReserved | crates/lionfs/src/allocator/bitmap.rs:161-212 | marks only the smaller count, in the first run of the larger one from hint or cursor, or else from the start, or else in the first run of the smaller one |
| Bitmap.TxContext.FreeExtents | crates/lionfs/src/allocator/bitmap.rs:290-298 | exactly the range is cleared; if it was all in use, free count plus balance is kept |
| Bitmap.TxContext.CountFreeBlocks | crates/lionfs/src/allocator/bitmap.rs:313-337 | the number of clear bits among the first ones |
| Bitmap.CountEdited | crates/lionfs/src/allocator/bitmap.rs:302-346 | marking free bits or clearing used ones moves the free count by their number |
| Bitmap.RunsStartInside | crates/lionfs/src/allocator/bitmap.rs:214-236 | every run that can be found starts no earlier than asked if and only if the bitmap reaches that far, or the rest of the group from where the scan then starts is too short |
| Bitmap.ScanStartBelow | crates/lionfs/src/allocator/bitmap.rs:230-235 | the scan never starts later than asked, and exactly there if and only if the bitmap reaches that far |
| Bitmap.HintedRunStartsEarly | crates/lionfs/src/allocator/bitmap.rs:61-100 | in an empty group of 32768 blocks a request near block 32767 is given block 0 |
| Bitmap.TxContext.constructor | crates/lionfs/src/transaction/transaction.rs:88-100 | no cursor, no high-water mark, balance zero |
| DiskTree.DiskTree.constructor | crates/lionfs/src/btree/tree.rs:194-198 | an empty map in the root block |
| DiskTree.DiskTree.WriteNode | crates/lionfs/src/btree/tree.rs:286-303 | every write gets a fresh stamp |
| DiskTree.DiskTree.Route | crates/lionfs/src/btree/tree.rs:348-355 | the separator loop finds the child of the key |
| DiskTree.DiskTree.FindLeaf | crates/lionfs/src/btree/tree.rs:324-357 | the descent ends in the one leaf whose region covers the key |
| DiskTree.DiskTree.Descend | crates/lionfs/src/btree/tree.rs:553-595 | the same with the path, and whether it is the rightmost leaf |
| DiskTree.DiskTree.Lookup | crates/lionfs/src/btree/tree.rs:320-359 | exactly what the map holds for the key |
| DiskTree.DiskTree.LookupUnder | crates/lionfs/src/btree/tree.rs:320-359 | the same under any root whose tree the store holds |
| DiskTree.DiskTree.LookupFloor | crates/lionfs/src/btree/tree.rs:367-405 | the greatest entry at or below the key if and only if the tree is not stranded there, that is unless the key's leaf has only greater entries while some key lies below the leaf; always in insert-only trees |
| DiskTree.DiskTree.FloorUnder | crates/lionfs/src/btree/tree.rs:367-405 | the key's leaf and its answer, under any root |
| DiskScan.FloorExact | crates/lionfs/src/btree/tree.rs:379-387 | when a leaf's own answer is the floor of the whole map |
| DiskFloor.FloorMissed | crates/lionfs/src/btree/tree.rs:381-385 | with leaves of two entries: insert 1, 2, 3, remove 2 and 3; the floor of 2 is then reported missing although 1 is there |
| DiskFloor.KnownPut | crates/lionfs/src/btree/tree.rs:631-680 | one operation on one leaf leaves one possible tree |
| DiskTree.DiskTree.CollectPairs | crates/lionfs/src/btree/tree.rs:428-449 | appends, in order, exactly what the map holds in the node's region |
| DiskTree.DiskTree.IterUnder | crates/lionfs/src/btree/tree.rs:418-423 | the whole map under any root |
| DiskTree.DiskTree.IterAll | crates/lionfs/src/btree/tree.rs:418-423 | the whole map, ascending |
| DiskTree.DiskTree.CopyNode | crates/lionfs/src/btree/tree.rs:1107-1130 | a frozen node moves to a fresh block, its parent or the root cell points there, the tree is the same and frozen nodes are untouched |
| DiskTree.DiskTree.WriteCopy | crates/lionfs/src/btree/tree.rs:1107-1130 | the copy has the body of the original and a new stamp; only the parent was rewritten, with the pointer replaced |
| DiskTree.DiskTree.Privatise | crates/lionfs/src/btree/tree.rs:1101-1131 | a private block in place of the node: itself or a copy |
| DiskTree.DiskTree.CowDescentPath | crates/lionfs/src/btree/tree.rs:1088-1134 | afterwards every node of the path is private; frozen nodes are untouched |
| DiskTree.DiskTree.GrowRoot | crates/lionfs/src/btree/tree.rs:784-855 | the taller root is in the old root's block, the left half in a fresh one, the map is the same |
| DiskTree.DiskTree.WriteGrown | crates/lionfs/src/btree/tree.rs:799-850 | the writes: left half in a fresh block, taller root in the old one, all other bodies kept |
| DiskTree.DiskTree.TellHalves | crates/lionfs/src/btree/tree.rs:808-835 | parents and the left link of the right half are brought up to date |
| DiskTree.DiskTree.InsertIntoParent | crates/lionfs/src/btree/tree.rs:771-950 | the right half is linked, full ancestors divided, limits hold, the root stays in its block; a leaf's split divides an inner node if and only if the parent is full |
| DiskTree.DiskTree.DivideParent | crates/lionfs/src/btree/tree.rs:882-944 | a full parent is divided with its new separator and the walk goes on upwards |
| DiskTree.DiskTree.WriteInnerHalves | crates/lionfs/src/btree/tree.rs:882-930 | both halves with the middle separator in neither, all other bodies as before; frozen nodes are untouched if and only if no child of the right half is frozen |
| DiskTree.DiskTree.Reparent | crates/lionfs/src/btree/tree.rs:920-930 | the listed nodes get the parent number and new stamps; bodies and links do not change |
| DiskPending.RestampedKept | crates/lionfs/src/btree/tree.rs:920-930 | restamping children keeps frozen nodes if and only if none of them is frozen |
| DiskTree.PastOverwritten | crates/lionfs/src/btree/tree.rs:920-930 | a recorded tree one of whose leaves is written in place reads the changed map from then on |
| DiskTree.DiskTree.WriteLeafHalves | crates/lionfs/src/btree/tree.rs:723-757 | the two halves, the right one hooked into the chain of leaves |
| DiskTree.DiskTree.SplitLeaf | crates/lionfs/src/btree/tree.rs:705-769 | a full leaf is divided with the same map; the key's leaf is smaller; frozen nodes are untouched unless the parent is full under a barrier |
| DiskTree.DiskTree.MakeRoom | crates/lionfs/src/btree/tree.rs:613-629 | the full leaf at the end of a path is divided, and the key's leaf has room afterwards |
| DiskTree.DiskTree.CutLeaf | crates/lionfs/src/btree/tree.rs:722-757 | the halves of a full leaf are written; the tree after the split is pending |
| DiskTree.DiskTree.JoinHalf | crates/lionfs/src/btree/tree.rs:759-768 | the right half is linked all the way up and a new epoch begins |
| DiskTree.DiskTree.InsertAt | crates/lionfs/src/btree/tree.rs:553-681 | the map gets the value, for every order of operations and through all splits; in a leaf with room only that leaf changes, a full root leaf is halved first; frozen nodes are untouched unless leaf and parent are full under a barrier; without barrier the root block never changes |
| DiskTree.DiskTree.Approach | crates/lionfs/src/btree/tree.rs:553-611 | the key's leaf, read before it may move, and a path that is private under a barrier |
| DiskTree.DiskTree.PutInto | crates/lionfs/src/btree/tree.rs:631-680 | a leaf with room gets the item, and its least and greatest key and count are reported |
| DiskTree.DiskTree.PutItems | crates/lionfs/src/btree/tree.rs:631-680 | a leaf with changed items is the tree of the changed map |
| DiskTree.DiskTree.Remove | crates/lionfs/src/btree/tree.rs:984-1068 | the map loses the key, and the result says whether it was there; only its leaf changes; frozen nodes are untouched |
| DiskTree.DiskTree.TakeOut | crates/lionfs/src/btree/tree.rs:1041-1063 | a leaf without one of its items is the map without that key |
| DiskTree.DiskTree.TakeSnapshot | crates/lionfs/src/fs/snapshots.rs:226-249 | the barrier is the stamp counter and the present root is recorded as a past |
| DiskTree.DiskTree.LookupPast | crates/lionfs/src/btree/tree.rs:185-191 | a recorded root reads the map it was recorded with |
| DiskTree.DiskTree.IterPast | crates/lionfs/src/btree/tree.rs:418-423 | and lists it, in order |
| DiskHistory.PastKept | crates/lionfs/src/btree/tree.rs:1082-1087 | a recorded past survives every change that keeps frozen nodes |
| DiskTree.DiskTree.Elsewhere | crates/lionfs/src/btree/tree.rs:18-26 | stamps, blocks and epochs used up by trees of other types keep everything |
| RootCells.RootTable.constructor | crates/lionfs/src/transaction/transaction.rs:28-36 | nothing recorded |
| RootCells.RootTable.SetRootCell | crates/lionfs/src/transaction/transaction.rs:163-166 | the root is recorded in the cell of the type, and in the mirror for three types |
| RootCells.RootTable.EffectiveRoot | crates/lionfs/src/transaction/transaction.rs:148-156 | the cell, else the mirror, else what the caller holds |
| RootCells.RootTable.Commit | crates/lionfs/src/fs/filesystem.rs:210-240 | moved roots with a superblock field are written there; the cells are empty again |
| RootCells.FindsItselfExactly | crates/lionfs/src/transaction/transaction.rs:148-166 | over every series of moves and commits, readers of a tree find its own root if and only if its type is never copied, or the moves of its type last and it is the only tree of the type |
| RootCells.MoveLost | crates/lionfs/src/disk/block_io.rs:91-98 | a copied tree whose type has neither mirror nor field loses its move with the transaction |
| RootCells.MoveTaken | crates/lionfs/src/transaction/transaction.rs:163-166 | the move of one copied tree redirects every other tree of its type |
| RootCells.OnlyExtentTrees | crates/lionfs/src/extents/tree.rs:6-6 | of the copied types only that of the per-inode extent trees does not last |
| DiskHandles.Handle.constructor | crates/lionfs/src/btree/tree.rs:157-166 | a live handle without caches |
| DiskHandles.Handle.ViewRoot | crates/lionfs/src/btree/tree.rs:185-191 | every live handle reads from the tree's live root, also one opened at the original root |
| DiskHandles.RecordedForever | crates/lionfs/src/btree/tree.rs:9-26 | what a cache entry recorded about its epoch is never made false |
| DiskHandles.StillThere | crates/lionfs/src/btree/tree.rs:461-551 | in its own epoch an entry names the current leaf for every key it is used for, unless that block is frozen |
| DiskHandles.Handle.TryUpdate | crates/lionfs/src/btree/tree.rs:461-496 | the in-place update writes the map a descent would, or leaves the tree alone |
| DiskHandles.Handle.TryAppend | crates/lionfs/src/btree/tree.rs:498-551 | so does the append to the cached rightmost leaf |
| DiskHandles.Handle.AppendAt | crates/lionfs/src/btree/tree.rs:529-543 | one more item at the end of a leaf with room is the map with the key |
| DiskHandles.Handle.Insert | crates/lionfs/src/btree/tree.rs:451-703 | the map gets the value by whichever path; the caches stay true |
| DiskHandles.Handle.Descend | crates/lionfs/src/btree/tree.rs:553-703 | the slow path, and what it caches is true |
| DiskHandles.Handle.Remove | crates/lionfs/src/btree/tree.rs:972-1068 | the map loses the key and the caches are dropped |
| DiskHandles.Handle.Lookup | crates/lionfs/src/btree/tree.rs:320-359 | exactly what the map holds, read from the handle's root |
| DiskHandles.Take | crates/lionfs/src/btree/tree.rs:451-703 | one call through one handle keeps the caches of all handles true |
| DiskHandles.Drive | crates/lionfs/src/btree/tree.rs:451-703 | any schedule of calls through any number of handles answers as one plain map does, whatever is cached where; without barrier the root block stays; with one, nothing frozen changes unless some insert met a full leaf below a full parent |

## Left out

- Raft commit safety (Leader Completeness, State Machine Safety): a success reply reports the follower's whole last index, stale entries included, so they do not follow from this code.
- Raft liveness, the draws behind timeouts, partition probabilities, `last_applied` and `server_mut`; terms and indexes are unbounded.
- RaftNetwork.Node.AppendFor: sends nothing when the next index is 0, where the source underflows.
- RaftReplies.RejectionBacksOff: for next indexes from 2 on, because at 1 the source goes on to 0; see RaftNetwork.Node.AppendFor.
- BeTree.BeTree.FlushAll: with fanout 2 and a tree higher than 129 nothing is promised, because such trees need not be logarithmic and the source stops after 128 rounds.
- Bε-tree statistics, shape tuning and serialisation: easy members.
- Gf256 division and the panics of the field helpers on zero.
- Chunk size statistics and the quality of the hash.
- Wal.RoundTrip: records are assumed to fit the 32-bit length field, and so in Wal.PrefixReplay, Wal.TornFrame and Engine.Engine.CrashRecovery; what a reader makes of a truncated length depends on the checksum.
- Wal.PrefixReplay: see Wal.RoundTrip.
- Wal.TornFrame: see Wal.RoundTrip.
- Wal.DamageStopsReplay: see Wal.RoundTrip.
- Engine.Engine.CrashRecovery: see Wal.RoundTrip.
- `Wal::open` after a torn tail, file errors and what a disk does before a sync.
- Path strings are already split into names, and the text inside errors is dropped.
- NamespaceHistory.TimeTravel: runs without restore and with non-decreasing times; a restore enters an old time, and NamespaceSnapshots.RestoreRewritesThePast says exactly which lookups that changes.
- The data half of the engine: chunks, reference counts, erasure groups, garbage collection, scrubbing, encryption and compression.
- Serialised forms of the namespace and of checkpoints.
- Bitmap.TxContext.FreeExtents: freeing unused blocks is allowed but then conserves nothing.
- On-disk checksums, the node cache, I/O errors, and the refusal of malformed nodes; leaves and inner nodes hold at least three items.
- DiskTree.DiskTree.TakeSnapshot: the stamp counter is at least 1, as every mount makes it (crates/lionfs/src/fs/filesystem.rs:732-738).
- DiskTree.DiskTree.Elsewhere: trees of the same node type are not among the others; see RootCells.FindsItselfExactly.
- DiskHandles.Handle.ViewRoot: the root cell is the tree's own; see RootCells.FindsItselfExactly.
- DiskHandles.Drive: under a barrier, for trees that find themselves; see RootCells.FindsItselfExactly.
- DiskTree.DiskTree.IterPast: see DiskTree.DiskTree.LookupPast.
- DiskTree.DiskTree.LookupPast: nothing is promised once an inner node has been split under the barrier, because re-parenting restamps frozen siblings.
- DiskTree.DiskTree.Remove: the variant without allocator, which fails when a frozen node would have to be copied, is not modelled; neither is `merge`, which does nothing.
- Stale caches after a snapshot is deleted: the barrier never falls here.
- Hybrid clocks, the segment store, RAID parity, directory records, tiering, reliability estimates, FUSE, command line and JavaScript front ends.
