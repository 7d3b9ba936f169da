# Verified model of TorrentMQ's core

A Dafny 4.11 model of the parts of TorrentMQ where being right is hard: the
Raft consensus node, the lock-free single-producer single-consumer ring, the
LRU cache, the consumer-group assignors and their wire form in two languages,
the Go wire codec and framing, the C++ varint and byte-order helpers, the
producer accumulators of both clients, their two Murmur2 implementations, and
the position and commit logic of the Python consumer.

`dafny verify dfyconfig.toml` checks everything. There are no assumptions:
every lemma, function and method has a body.

## Layout

| files | what they hold |
|---|---|
| `RaftQuorum`, `RaftNode`, `RaftCluster` | membership and quorums; one node as functions and as a class; the cluster as a state machine over lossy, reordering, duplicating messages with restarts |
| `RaftInvariant`, `RaftProof`, `RaftSteps`, `RaftReplication`, `RaftAppend` | the inductive invariant and one lemma per step |
| `RaftSafety`, `RaftBacktrack` | the theorems over whole runs; how a leader finds where a follower agrees with it |
| `RaftProgress`, `RaftAvailability` | elections that are won and entries that are committed, in words of their own; that no reachable state is a dead end |
| `RingArithmetic`, `SpscRing`, `SpscQueue` | power-of-two rounding; the ring interleaved load by load and store by store; the queue as an object |
| `LruSpec`, `LruTraces`, `LruCache` | the recency list; theorems about traces; the list-and-map implementation |
| `Wrappers`, `Sets`, `Sequences` | optional values; small facts about finite sets and about concatenation |
| `Bits`, `WireBytes`, `Endian` | bit operations on numbers; big-endian integers, two's complement, base 128; the C++ helpers |
| `GoCodec`, `GoBuffers`, `GoFrames` | the Go wire format as functions; the growing writer and the reader; request and response frames |
| `Assignors`, `PythonWire`, `AssignmentWire`, `TruncatedAssignments`, `GroupAssignment`, `PythonBuffers`, `GroupLeader` | who gets which partition; what Python's reader makes of a buffer; how an assignment is encoded and decoded; messages cut short; end to end; the Python buffers; the loops |
| `Batches`, `PythonAccumulator`, `GoAccumulator`, `GoProducer` | record accumulation in both clients; the Go producer's futures |
| `Murmur2` | the two hash functions and the published algorithm |
| `Positions`, `Commits`, `Polling` | the consumer's two dictionaries; commits that overlap with rebalances and seeks; polls |

## Reading choices

- The Raft header gives its handlers as step-by-step contracts; the model
  follows those and the inline code. A bare vote counter is modelled as the set
  of voters of the current term: a reply counts for the current term only, and
  a voter once. An acknowledgement carries the index of the request it answers.
  A follower's commit index is the larger of the old one and
  `min(leader_commit, last_new)`. Which entries a leader sends, and when, is left
  open in the cluster, so the safety theorems hold for every use of `next_index`;
  `RaftBacktrack` treats the probing itself. A failed check gives no conflict
  hint when the follower has no entry at prev_log_index. Whether a candidate that
  hears a leader of its own term steps down is a parameter (`concede`) of the
  step, and the theorems hold for both readings.
- What a transition function computes is also stated without naming it.
  `RaftProgress` says when a vote is given, an election won and an index
  committed in terms of terms, logs and head counts; `NoDeadEnd` says of the
  whole cluster that any quorum can always go on to commit and apply a command.
  Likewise for what a poll returns, a drain takes, a future holds, and for the
  bytes of a field, a frame and an assignment.
- The configuration is fixed for a run but may be a joint one; a quorum is a
  majority of both lists, as the documentation of `RaftMembership` says.
  `quorum_size()` alone is not that test. `SizeAloneIsNotAQuorum` and
  `MeetingIsNotAQuorum` give inputs on which a set passes it without a majority
  of both lists, and `SizeAloneIsQuorumIff` the exact condition, list by list,
  under which passing implies such a majority. `SizeAloneIntersects` is about
  less: when any two sets that pass meet each other.
- The C++ varint decoders shift by at least the width of the word, which C++
  leaves undefined, on exactly the buffers whose first 5 or 10 bytes all say that
  more follow and that hold at least one byte more, whatever it is. The model
  gives that its own outcome, `ShiftTooFar`; `ShiftsTooFarIff` is the exact
  condition and `ShiftTooFarExample` a buffer. The Go decoder has no limit either,
  but there such a shift adds nothing.
- `next_power_of_2` wraps to 0 above 2^63, and gives 2 for 0; both are in its
  contract.
- The Go writer does not check that a length fits its prefix, and the reader
  accepts negative lengths and fails in the slice. `FieldRoundTrip` states the
  round trip as an if-and-only-if with the length limit.
- A member listed twice is sent its share twice, so the assignors divide the work
  exactly for distinct members and, as `ExactDivisionIff` shows, for no others
  except where the repeated members are listed past the end of the work.
- The consumer's committed offset can get ahead of its position: a rebalance or a
  seek may move the position behind a commit that is under way, or behind the
  committed offset, which a rebalance updates second. `RebalanceDuringCommit` and
  `RebalanceDuringCommitExample` give such runs. `CommittedNeverAheadIff` is the
  exact condition over whole runs and all continuations, a guard on each move of
  a position; a commit that has ended, or has marked the partition, no longer
  counts.
- Arithmetic on configuration values that Python does in floating point
  (`buffer_memory * 0.9`, `linger_ms / 1000.0`) is exact here.

## Model

| member | source | states |
|---|---|---|
| `RaftQuorum.QuorumSet` | include/torrent/consensus/raft_types.h:233-241 | the loop returns exactly the nodes of both lists, duplicate-free when the lists are |
| `RaftQuorum.QuorumsMeet` | include/torrent/consensus/raft_types.h:219-221 | two quorums of one configuration, joint or not, share a member |
| `RaftQuorum.JointQuorum` | include/torrent/consensus/raft_types.h:219-249 | a dual majority meets every majority of either list and has at least quorum_size() nodes of the union |
| `RaftQuorum.QuorumSizeIsLeast` | include/torrent/consensus/raft_types.h:243-249 | quorum_size() is the least number that is more than half of each list |
| `RaftQuorum.SizeAloneIntersects` | include/torrent/consensus/raft_types.h:243-249 | any two sets of quorum_size() nodes meet each other if and only if twice that size exceeds the union |
| `RaftQuorum.SizeAloneIsNotAQuorum` | include/torrent/consensus/raft_types.h:219-249 | moving from one node to another, the new one alone passes the size test without a majority of the old configuration |
| `RaftQuorum.MeetingIsNotAQuorum` | include/torrent/consensus/raft_types.h:219-249 | growing from three nodes to five, some three pass the size test without a majority of the old list, though any two sets that pass meet |
| `RaftQuorum.SizeAloneIsQuorumIff` | include/torrent/consensus/raft_types.h:219-249 | every set that passes the size test is a dual majority if and only if twice the size and a list together exceed twice the union, for each list |
| `RaftNode.RaftNode.StepToFollower` | include/torrent/consensus/raft.h:325-330 | a higher term is adopted and the vote cleared; a term that is not higher keeps the vote; follower states are cleared |
| `RaftNode.RaftNode.StartElection` | include/torrent/consensus/raft.h:339-345 | term incremented, vote for itself, own vote counted |
| `RaftNode.RaftNode.TakeLeadership` | include/torrent/consensus/raft.h:347-353 | next_index one past the log and match_index 0 for each peer, and a no-op of the own term appended |
| `RaftNode.RaftNode.OnVoteRequest` | include/torrent/consensus/raft.h:252-268 | the whole decision, real and pre-vote, and the new state: a pre-vote changes nothing |
| `RaftNode.RaftNode.OnVoteReply` | include/torrent/consensus/raft.h:298-307 | votes of the current term counted once per voter, then the tally |
| `RaftNode.RaftNode.AppendToLog` | include/torrent/consensus/raft.h:443-450 | the check and its outcome; on a match the loop keeps the agreeing part, cuts at the first conflict and appends the rest; on a mismatch the log stays and the hint is the first index of the conflicting term |
| `RaftNode.RaftNode.OnAppendRequest` | include/torrent/consensus/raft.h:238-250 | consistency check, merge, commit index never moving back, and the reply with its hints |
| `RaftNode.RaftNode.OnAppendReply` | include/torrent/consensus/raft.h:285-296 | success sets match_index and next_index from the request answered, failure moves next_index back to the hint, then the commit index |
| `RaftNode.RaftNode.AdvanceCommitIndex` | include/torrent/consensus/raft.h:392-398 | the loop over all indices leaves the one the commitment rule gives |
| `RaftNode.HighestCommittableIsHighest` | include/torrent/consensus/raft.h:392-398 | never moves back, stops only at an own-term entry on a quorum, and leaves no higher one |
| `RaftProgress.VoteGrantedIff` | include/torrent/consensus/raft.h:252-268 | a vote is granted if and only if the term is not passed, the voter's log ends no later, and, unless it is a pre-vote, the voter has not voted for another in that term |
| `RaftProgress.RepeatedRequest` | include/torrent/consensus/raft.h:252-268 | a granted request that is repeated is granted again and changes nothing, and a pre-vote never changes the voter |
| `RaftProgress.LaterTermIsTaken` | include/torrent/consensus/raft.h:237-307 | a message of a later term makes any node a follower of that term with its vote free, and a request of an earlier one changes nothing and is refused |
| `RaftProgress.QuorumIsMostOfBoth` | include/torrent/consensus/raft_types.h:219-221 | the quorum test accepts exactly the sets that hold more nodes of each list than they lack |
| `RaftProgress.ElectionIsWon` | include/torrent/consensus/raft.h:298-307 | a candidate above the terms of some nodes, with a log that ends no earlier than theirs, that is with them most of both lists, leads its term once they have answered, in any order, and each has recorded its vote |
| `RaftProgress.PreVoteIsWon` | include/torrent/consensus/raft.h:304-306 | a pre-candidate becomes candidate of the next term under the same condition on logs, also with nodes of its own term, and leaves the nodes that answer as they were |
| `RaftProgress.CommitIndexIs` | include/torrent/consensus/raft.h:391-397 | the new commit index: never lower, an index of the own term held by most of both lists if it moves, and no such index beyond it |
| `RaftProgress.LogIsCommitted` | include/torrent/consensus/raft.h:391-397 | once the nodes probed, which with the leader are most of both lists, have answered, the leader commits the whole of a log that ends in its term |
| `RaftAvailability.LeadersCommit` | include/torrent/consensus/raft.h:391-397 | in every state of every run the last holds of every leader and all nodes of no later term, with no condition on next_index or the log |
| `RaftAvailability.NoDeadEnd` | include/torrent/consensus/raft.h:298-404 | every run can go on from its last state, by steps of the nodes of any one quorum only, until one of them leads and has committed and applied a given command |
| `RaftAppend.StepInv` | include/torrent/consensus/raft.h:238-450 | every step of every node keeps the cluster invariant |
| `RaftAppend.RunInv` | include/torrent/consensus/raft.h:238-450 | the invariant holds in every state of every run |
| `RaftSteps.VouchOk` | include/torrent/consensus/raft.h:585-591 | the election restriction: a voter vouches for everything it confirmed in earlier terms |
| `RaftSteps.UpToDateHolds` | include/torrent/consensus/raft.h:585-591 | a log at least as up to date holds a confirmed chunk, or that chunk was given up by a leader in between |
| `RaftReplication.NotYetElected` | include/torrent/consensus/raft.h:298-307 | a candidate with a quorum of votes finds its term without a leader |
| `RaftReplication.WinnerIsSafe` | include/torrent/consensus/raft.h:252-268 | whatever a quorum may still confirm in an earlier term is in the winner's log |
| `RaftReplication.MergeIsPrefix` | include/torrent/consensus/raft.h:443-450 | comparing terms only, the merged log is the follower's own or exactly the leader's prefix |
| `RaftReplication.CheckIsPrefix` | include/torrent/consensus/raft.h:443-450 | the one-term check at prev_log_index guarantees the whole prefix |
| `RaftReplication.AppendKeepsShared` | include/torrent/consensus/raft.h:238-250 | however stale, an AppendEntries never removes what the follower shares with that leader |
| `RaftAppend.CommittedNotBlocked` | include/torrent/consensus/raft.h:392-398 | a committed index can no longer be given up by a quorum |
| `RaftAppend.CommittedInTermLog` | include/torrent/consensus/raft.h:392-398 | a committed prefix is in the log of every later term's leader |
| `RaftSafety.RunExtends` | include/torrent/consensus/raft.h:325-353 | elections, votes, leader logs and applied entries are never undone along a run |
| `RaftSafety.ElectionSafety` | include/torrent/consensus/raft.h:252-353 | over every run, with loss, delay, duplication and restarts, at most one leader a term |
| `RaftSafety.OneVotePerTerm` | include/torrent/consensus/raft.h:252-268 | a node votes for one candidate a term, restarts included |
| `RaftSafety.CountedVotesAreReal` | include/torrent/consensus/raft.h:252-307 | every vote a candidate counts, and every granted reply with its term, answers a real request: pre-votes never count |
| `RaftSafety.LogMatching` | include/torrent/consensus/raft.h:238-250 | entries with the same index and term are preceded by the same log, across nodes and across time |
| `RaftSafety.LeaderCompleteness` | include/torrent/consensus/raft.h:392-402 | what any node has committed is in every later leader's log |
| `RaftSafety.CommitRuleIsSafe` | include/torrent/consensus/raft.h:392-402 | an own-term entry on a quorum is in the log of every leader of a later term |
| `RaftSafety.StateMachineSafety` | include/torrent/consensus/raft.h:400-402 | no two nodes ever apply different entries at one index |
| `RaftSafety.AppliesInOrder` | include/torrent/consensus/raft.h:399-401 | in every state of every run a node has applied every entry of its log up to last_applied, each at its index |
| `RaftSafety.LeadersAreReady` | include/torrent/consensus/raft.h:347-353 | in every state of every run a leader's log ends in its term and its next_index of every other node lies between 1 and one past its log |
| `RaftBacktrack.FirstOfTermIs` | include/torrent/consensus/raft.h:443-450 | the hint starts the run of the conflicting term: all of it has that term and the entry before it does not |
| `RaftBacktrack.FailedProbe` | include/torrent/consensus/raft.h:285-296 | after a failed probe at an entry the follower has, next_index is where that entry's term begins in the follower's log, and otherwise one lower |
| `RaftBacktrack.ProbeEnds` | include/torrent/consensus/raft.h:285-296 | repeated exchanges through the two handlers end, and end where `Backtrack` says: the entries from there on are merged into the follower's log, match_index and next_index are set just past them |
| `RaftBacktrack.BacktrackInRuns` | include/torrent/consensus/raft.h:285-296 | in every state of every run, probing ends where the two logs agree, and what it steps over of what they share is the work of one term |
| `RaftBacktrack.ProbeInRuns` | include/torrent/consensus/raft.h:285-296 | in every state of every run, probing a follower through the handlers leaves it with the leader's log up to the new match_index |
| `RingArithmetic.NextPowerOf2` | include/torrent/common/circular_buffer.h:111-121 | the least power of two not below n for 1 to 2^63, 2 for 0, and 0 above 2^63 |
| `RingArithmetic.SmearStep` | include/torrent/common/circular_buffer.h:114-119 | one shift-and-or doubles the run of ones below the leading one |
| `Bits.AndMask` | include/torrent/common/circular_buffer.h:43-43 | masking with a power of two less one is the remainder |
| `Bits.BitOf` | clients/go/torrentmq/producer.go:758-793 | the three bit operations are and, or and exclusive or in every bit |
| `SpscRing.StepKeeps` | include/torrent/common/circular_buffer.h:41-67 | every load, store and slot access of either thread keeps the ring's invariant |
| `SpscRing.Fifo` | include/torrent/common/circular_buffer.h:41-67 | in every interleaving: popped items are a prefix of pushed items, the slots in use are never the same, push fails exactly when full and pop exactly when empty at the peer-index load |
| `SpscRing.ChecksSuffice` | include/torrent/common/circular_buffer.h:45-65 | a thread that passed its check is never blocked at its slot |
| `SpscRing.SizeFromProducer` | include/torrent/common/circular_buffer.h:88-93 | size() in the producer is the true length when the tail is loaded, and within capacity() |
| `SpscRing.SizeFromConsumer` | include/torrent/common/circular_buffer.h:88-93 | size() in the consumer is the true length when the head is loaded, and within capacity() |
| `SpscQueue.SpscQueue.constructor` | include/torrent/common/circular_buffer.h:33-36 | up to 2^63 empty with at least the slots asked for; above, no slots and a mask of all ones |
| `SpscQueue.SpscQueue.TryPush` | include/torrent/common/circular_buffer.h:41-52 | succeeds exactly below capacity and appends the item |
| `SpscQueue.SpscQueue.TryPop` | include/torrent/common/circular_buffer.h:57-67 | takes the oldest item, or nothing exactly when empty |
| `SpscQueue.SpscQueue.Count` | include/torrent/common/circular_buffer.h:88-93 | the number of items |
| `SpscQueue.SpscQueue.Full` | include/torrent/common/circular_buffer.h:80-83 | whether the capacity is reached |
| `SpscQueue.SpscQueue.Empty` | include/torrent/common/circular_buffer.h:72-75 | whether there is no item |
| `LruSpec.RunSound` | include/torrent/common/lru_cache.h:43-118 | after every trace keys are distinct and the capacity respected |
| `LruTraces.Inclusion` | include/torrent/common/lru_cache.h:43-118 | on one trace the smaller cache is a subsequence of the larger, so its hits are the larger one's hits with equal values |
| `LruTraces.HitsAreFresh` | include/torrent/common/lru_cache.h:43-118 | an entry holds the last value put for its key since any erase or clear |
| `LruTraces.Retention` | include/torrent/common/lru_cache.h:43-118 | a key touched and not erased stays while fewer than max_entries other keys are put or hit |
| `LruCache.LruCache.constructor` | include/torrent/common/lru_cache.h:34-35 | empty, with a capacity of at least one |
| `LruCache.LruCache.ContentsSound` | include/torrent/common/lru_cache.h:161-166 | whenever the cache is valid, its entries have distinct keys, are within capacity, and the map holds exactly the keys of the list |
| `LruCache.LruCache.Get` | include/torrent/common/lru_cache.h:43-53 | list, nodes and map stay in agreement and become the recency list after a get; returns its lookup |
| `LruCache.LruCache.Put` | include/torrent/common/lru_cache.h:63-84 | update or insert, evicting the last entry at capacity |
| `LruCache.LruCache.Contains` | include/torrent/common/lru_cache.h:89-92 | presence, without promotion |
| `LruCache.LruCache.Erase` | include/torrent/common/lru_cache.h:100-109 | removes one key and says whether it was there |
| `LruCache.LruCache.Clear` | include/torrent/common/lru_cache.h:114-118 | leaves nothing |
| `Endian.VarintEncode` | src/torrent/common/endian.cpp:116-134 | writes exactly the base-128 bytes of the value and nothing after them |
| `WireBytes.LebAt` | src/torrent/common/endian.cpp:116-134 | byte i of an encoding is the i-th group of seven bits, with its top bit set on all but the last |
| `Endian.VarintDecode` | src/torrent/common/endian.cpp:136-164 | on every buffer: whether a shift reaches the width, and if none does, the value and length of the varint at the front, or 0 and 0 when the buffer ends early |
| `Endian.DecodeIs` | src/torrent/common/endian.cpp:136-164 | on any bytes that end the varint in time, shortest or not, the decoder gives the number of the seven-bit groups modulo the word, and how many there are |
| `Endian.ShiftsTooFarIff` | src/torrent/common/endian.cpp:136-164 | the C++ shift reaches the width exactly when the first 5 or 10 bytes all continue and at least one byte follows |
| `Endian.ShiftTooFarExample` | src/torrent/common/endian.cpp:136-164 | a buffer on which it does |
| `Endian.VarintRoundTrip` | src/torrent/common/endian.cpp:116-164 | for every 32- and 64-bit value and any trailing bytes, decoding returns the value and the length, at most 5 or 10 |
| `Endian.StrictPrefixUnderflows` | src/torrent/common/endian.cpp:136-164 | every strict prefix of an encoding reads nothing |
| `Endian.EncodingIsShortest` | src/torrent/common/endian.cpp:116-164 | no bytes that decode to a value are fewer than its encoding |
| `Endian.ZigZagMeaning` | src/torrent/common/endian.cpp:96-102 | the shift-and-xor numbers 0, -1, 1, -2, 2 in turn |
| `Endian.ZigZagBijection` | src/torrent/common/endian.cpp:96-110 | both directions are inverse on all 32- or 64-bit words |
| `Endian.SignedRoundTrips` | src/torrent/common/endian.cpp:170-192 | signed varints round-trip, whatever follows |
| `Endian.VarintDecodeSigned` | src/torrent/common/endian.cpp:178-192 | the same for signed varints on every buffer; leaves the output alone when nothing is read |
| `Endian.Swap64IsBigEndian` | src/torrent/common/endian.cpp:14-42 | the 64-bit conversion stores big-endian bytes and is its own inverse |
| `GoCodec.GoAgreesWithCpp` | clients/go/torrentmq/protocol.go:458-474 | the Go varint reader agrees with the C++ decoder wherever that is defined |
| `GoCodec.ReadUnsignedIs` | clients/go/torrentmq/protocol.go:458-474 | on any bytes, the number of all the groups up to the one that ends the varint, however many, modulo 2^64 |
| `GoCodec.BoolLayout` | clients/go/torrentmq/protocol.go:377-384 | a bool is the byte 1 or 0, and any byte but 0 reads as true |
| `GoCodec.NullableLayout` | clients/go/torrentmq/protocol.go:308-353 | a nullable field is its length in two or four big-endian bytes and then its bytes, all ones standing for null |
| `GoCodec.CompactLayout` | clients/go/torrentmq/protocol.go:330-365 | a compact field is one more than its length in groups of seven bits and then its bytes, 0 standing for null |
| `GoCodec.FieldRoundTrip` | clients/go/torrentmq/protocol.go:265-578 | a field of any type reads back, consuming exactly its bytes, if and only if its length fits its prefix |
| `GoCodec.MessageRoundTrip` | clients/go/torrentmq/protocol.go:236-578 | every list of fields reads back, at any position in any buffer, if and only if all its lengths fit their prefixes, and then exactly its bytes are consumed |
| `GoCodec.TruncatedMessage` | clients/go/torrentmq/protocol.go:402-578 | every strict prefix of a message makes some read report underflow |
| `GoBuffers.BinaryWriter.Ensure` | clients/go/torrentmq/protocol.go:253-263 | makes room without losing what was written |
| `GoBuffers.BinaryWriter.WriteInt` | clients/go/torrentmq/protocol.go:265-288 | appends the big-endian bytes, cutting what does not fit |
| `GoBuffers.BinaryWriter.WriteUnsigned` | clients/go/torrentmq/protocol.go:290-300 | appends the base-128 bytes |
| `GoBuffers.BinaryWriter.WriteField` | clients/go/torrentmq/protocol.go:265-395 | each typed write appends the bytes of its field |
| `GoBuffers.BinaryReader.ReadField` | clients/go/torrentmq/protocol.go:402-578 | each typed read is the field reader at the cursor, and advances the cursor past it |
| `GoBuffers.WriteAndRead` | clients/go/torrentmq/protocol.go:236-578 | a message written through a buffer of any initial capacity reads back whole |
| `GoFrames.BuildRequest` | clients/go/torrentmq/protocol.go:623-638 | the buffer filled piece by piece is the frame |
| `GoFrames.RequestLayout` | clients/go/torrentmq/protocol.go:623-641 | the offset and the big-endian value of each header field, and where the client id and the body lie |
| `GoFrames.RequestParses` | clients/go/torrentmq/protocol.go:615-638 | a frame is recovered from its length prefixes, whatever follows it |
| `GoFrames.RequestsUnique` | clients/go/torrentmq/protocol.go:615-638 | equal request streams come from equal lists of requests |
| `GoFrames.Connection.ReadFullResponse` | clients/go/torrentmq/protocol.go:664-678 | outcome and remaining bytes of one read, errors and panics included |
| `GoFrames.ResponseIs` | clients/go/torrentmq/protocol.go:644-678 | of any bytes: an error when they end before the frame, a panic on a negative size, too short below four, and otherwise size, correlation id, body and what is left |
| `GoFrames.ResponseLayout` | clients/go/torrentmq/protocol.go:644-662 | size, correlation id and body of a response at their offsets |
| `GoFrames.StreamReads` | clients/go/torrentmq/protocol.go:644-678 | repeated reads of concatenated frames return each correlation id and body in order and leave exactly the rest |
| `GoFrames.TruncatedResponse` | clients/go/torrentmq/protocol.go:664-678 | a connection that ends inside a frame gives an error, never a response |
| `GoFrames.ParseInsideReadNeverPanics` | clients/go/torrentmq/protocol.go:644-678 | with a non-negative size prefix the slice in the parse is in range |
| `Assignors.GroupIsExact` | clients/python/torrent_mq/consumer.py:761-763 | grouping lists each topic once, with exactly its partitions in order |
| `Assignors.ExactDivision` | clients/python/torrent_mq/consumer.py:756-809 | for distinct members the shares of either assignor add up to the partitions, repeats included |
| `Assignors.DuplicateMembersDuplicateWork` | clients/python/torrent_mq/consumer.py:785-790 | a pair is sent once for each time the member it was given to is listed |
| `Assignors.ExactDivisionIff` | clients/python/torrent_mq/consumer.py:756-809 | for any non-empty list of members the shares add up to the partitions if and only if repeated members get nothing, which is when they are listed past the last partition (round-robin) or past the last partition of every topic (range) |
| `Assignors.RangeIsContiguous` | clients/python/torrent_mq/consumer.py:768-783 | of every topic a member holds one sorted contiguous slice, starting where the earlier members' slices end |
| `Assignors.RangeBalance` | clients/python/torrent_mq/consumer.py:768-783 | counts per topic differ by at most one and are never larger for a later member |
| `Assignors.RoundRobinShare` | clients/python/torrent_mq/consumer.py:796-803 | member k gets every m-th partition from k on |
| `Assignors.RoundRobinBalance` | clients/python/torrent_mq/consumer.py:796-803 | totals differ by at most one |
| `AssignmentWire.PythonRoundTrip` | clients/python/torrent_mq/protocol.py:1463-1499 | Python decodes what it encoded to the same pairs, grouped and sorted |
| `AssignmentWire.GoRoundTrip` | clients/go/torrentmq/consumer.go:910-944 | Go decodes what Python encoded to exactly the topics with partitions, each sorted |
| `AssignmentWire.GoToGo` | clients/go/torrentmq/consumer.go:893-944 | Go decodes what Go encoded, whatever order the map was visited in |
| `AssignmentWire.BothDecodersRecover` | clients/python/torrent_mq/protocol.py:1463-1499 | either decoder recovers the bag of pairs encoded |
| `AssignmentWire.EntryLayout` | clients/python/torrent_mq/protocol.py:1463-1482 | a topic byte by byte: length, name, count and the partitions four bytes apart |
| `AssignmentWire.MessageIsAt` | clients/python/torrent_mq/protocol.py:1463-1482 | version 0, the count, the topics and -1 for no user data, each at its offset |
| `TruncatedAssignments.GoKeepsWholeTopics` | clients/go/torrentmq/consumer.go:910-944 | of a message cut short anywhere, Go gives exactly the topics that are there whole |
| `TruncatedAssignments.PythonRaisesIff` | clients/python/torrent_mq/protocol.py:1485-1499 | of a message cut short, Python gives nothing if it is empty, everything if only the user data is missing, and otherwise raises |
| `GroupAssignment.EndToEnd` | clients/python/torrent_mq/consumer.py:735-809 | for either assignor, and each member decoding in its own language, the group holds exactly the subscription, and a partition has one holder if and only if it is listed once; members are distinct or repeated only past the end of the work |
| `GroupAssignment.EndToEndIff` | clients/python/torrent_mq/consumer.py:735-809 | for any non-empty list of members whose shares were all encoded, the decoded holdings of the group are exactly the subscription, for every partition, if and only if repeated members are listed first past the end of the work |
| `GroupAssignment.SucceedsIff` | clients/python/torrent_mq/protocol.py:1463-1482 | for any non-empty list of members, repeated or not, the leader's encoding succeeds exactly when every topic with partitions has a name that fits, and then fits a Go slice |
| `PythonBuffers.BinaryWriter.Ensure` | clients/python/torrent_mq/protocol.py:338-344 | makes room, at least doubling when the buffer moves, without losing what was written |
| `PythonBuffers.BinaryWriter.WriteInt` | clients/python/torrent_mq/protocol.py:359-367 | succeeds exactly when the value fits, and then appends its bytes |
| `PythonBuffers.BinaryWriter.WriteString` | clients/python/torrent_mq/protocol.py:394-403 | succeeds exactly when the length fits its prefix |
| `PythonBuffers.BinaryReader.ReadInt` | clients/python/torrent_mq/protocol.py:484-494 | the integer at the cursor, counted from the end when it is negative, or an exception |
| `PythonBuffers.BinaryReader.ReadName` | clients/python/torrent_mq/protocol.py:522-530 | null reads as the empty name; otherwise the slice that the length asks for, even a negative one, which moves the cursor back |
| `PythonWire.ReadsFromEnd` | clients/python/torrent_mq/protocol.py:485-495 | a cursor below 0 counts from the end of the buffer, and raises where the integer would not lie in it |
| `PythonWire.NegativeLengthGoesBack` | clients/python/torrent_mq/protocol.py:522-530 | a string length below -1 reads as the empty string and moves the cursor back by that much |
| `GroupLeader.CollectPartitions` | clients/python/torrent_mq/consumer.py:740-745 | the partitions of every subscribed topic in order |
| `GroupLeader.AssignRange` | clients/python/torrent_mq/consumer.py:756-790 | the nested loops give the range shares, encoded |
| `GroupLeader.AssignRoundRobin` | clients/python/torrent_mq/consumer.py:792-809 | the loop gives the round-robin shares, encoded |
| `GroupLeader.ComputeAssignments` | clients/python/torrent_mq/consumer.py:735-754 | nothing is sent when there is nothing to assign; otherwise the chosen assignor's result |
| `GroupLeader.EncodeAssignment` | clients/python/torrent_mq/protocol.py:1463-1482 | the encoding, or an error exactly when something does not fit |
| `GroupLeader.DecodeAssignment` | clients/python/torrent_mq/protocol.py:1485-1499 | the loops decode what the Python decoding function gives |
| `GroupLeader.DecodeMemberAssignment` | clients/go/torrentmq/consumer.go:910-944 | the loops give the map, partial on an error, or a panic |
| `GroupLeader.EncodeMemberAssignment` | clients/go/torrentmq/consumer.go:893-907 | the message of the map's items in the order visited |
| `PythonAccumulator.Conservation` | clients/python/torrent_mq/producer.py:464-554 | over every interleaving of critical sections, drained batches followed by pending records are the append sequence of each partition, and every byte counter is exact |
| `PythonAccumulator.DrainLeaves` | clients/python/torrent_mq/producer.py:502-538 | an uninterrupted drain leaves no full or overdue batch and at most nine tenths of buffer_memory, and takes or leaves each batch whole |
| `PythonAccumulator.DrainTakesIff` | clients/python/torrent_mq/producer.py:502-538 | an uninterrupted drain takes a batch if and only if its bytes reach batch_size, its first record has lingered, or the batches of which neither holds exceed nine tenths of buffer_memory |
| `PythonAccumulator.SizeOfIs` | clients/python/torrent_mq/producer.py:488-495 | a batch counts the bytes of its values and keys and 50 for each record |
| `PythonAccumulator.FreshBatchStays` | clients/python/torrent_mq/producer.py:519-525 | a batch that is neither full nor overdue stays as long as all of them fit nine tenths of the memory |
| `PythonAccumulator.InterruptedDrainLeaves` | clients/python/torrent_mq/producer.py:502-538 | whatever other threads do before and between the two sections of a drain, what is pending after the second lies under keys the first took, and is the end of what was appended there in between |
| `PythonAccumulator.DrainIsTwoSections` | clients/python/torrent_mq/producer.py:502-538 | the two critical sections in sequence leave what that drain leaves and take what it takes |
| `PythonAccumulator.RecordAccumulator.Append` | clients/python/torrent_mq/producer.py:464-500 | the three dictionaries after an append |
| `PythonAccumulator.RecordAccumulator.Drain` | clients/python/torrent_mq/producer.py:502-538 | the loops take exactly the drained keys and return their batches: those full or overdue, or all when the rest is over nine tenths of the memory |
| `PythonAccumulator.RecordAccumulator.FlushAll` | clients/python/torrent_mq/producer.py:540-550 | returns every batch and leaves nothing |
| `PythonAccumulator.RecordAccumulator.PendingCount` | clients/python/torrent_mq/producer.py:552-554 | the number of pending records |
| `GoAccumulator.TopicAccumulator.Append` | clients/go/torrentmq/producer.go:541-553 | the accumulator after an append, its byte count still exact |
| `GoAccumulator.ClockStartsOnce` | clients/go/torrentmq/producer.go:541-553 | the linger clock of a partition starts with the first record of its batch, and nothing else moves it |
| `GoAccumulator.DrainReadyTakes` | clients/go/torrentmq/producer.go:556-580 | a batch goes if its records reach the batch size or 5 ms have passed since its clock started, and otherwise stays untouched |
| `GoAccumulator.TopicAccumulator.DrainReady` | clients/go/torrentmq/producer.go:556-580 | the loop takes exactly the full or lingering batches and keeps the byte count exact |
| `GoAccumulator.TopicAccumulator.DrainAll` | clients/go/torrentmq/producer.go:583-592 | returns everything and leaves nothing |
| `GoProducer.StepInv` | clients/go/torrentmq/producer.go:376-592 | sends, drains and sendBatch calls, in any interleaving, keep the producer's invariant |
| `GoProducer.RunConserves` | clients/go/torrentmq/producer.go:541-592 | over every run, of each partition the drained batches followed by the pending records are the append sequence, and byte counts are exact |
| `GoProducer.FuturesCompleteOnce` | clients/go/torrentmq/producer.go:376-485 | over every run no send hits a closed channel, and a future is complete exactly when its one record's batch went through sendBatch, with that outcome |
| `GoProducer.FuturesHoldOffsets` | clients/go/torrentmq/producer.go:471-485 | over every run, the future of record i of a batch is open while the batch waits, nil if it failed, and holds the base offset plus i if it was stored |
| `GoProducer.BufferedFuturesAreOpen` | clients/go/torrentmq/producer.go:541-553 | over every run, the future of a buffered record is open |
| `GoProducer.CompletionIsFinalInRuns` | clients/go/torrentmq/producer.go:407-485 | along every run a completed future never changes |
| `GoProducer.NeverCompletesIff` | clients/go/torrentmq/producer.go:694-735 | once nothing is drained any more, as after Close, a future stays open for ever if and only if its record is still buffered |
| `GoProducer.CompleteFutures` | clients/go/torrentmq/producer.go:434-485 | the loop completes the futures of a batch in order: record i with the base offset plus i, or nil, and no other future changes |
| `Murmur2.WordIsLittleEndian` | clients/python/torrent_mq/producer.py:182-187 | both assemble a block as a little-endian number |
| `Murmur2.HashesAgree` | clients/go/torrentmq/producer.go:758-793 | for every byte string of any length the Python hash is the Go hash with its top bit cleared |
| `Murmur2.HashIsPublished` | clients/go/torrentmq/producer.go:758-793 | the Go hash is the published Murmur2 of the little-endian numbers of the key, with the Kafka seed, and Python's is it without the top bit |
| `Murmur2.PythonMurmur2` | clients/python/torrent_mq/producer.py:171-207 | the loop and tail compute the hash function, below 2^31 |
| `Murmur2.GoMurmur2` | clients/go/torrentmq/producer.go:758-793 | the loop and fall-through switch compute the hash function, below 2^32 |
| `Commits.StepKeeps` | clients/python/torrent_mq/consumer.py:370-415 | every critical section of polls, commits, guarded rebalances and seeks keeps what is or may yet be committed at or below the position |
| `Commits.MoveIff` | clients/python/torrent_mq/consumer.py:859-893 | a move of a position keeps the bound, at once and in every continuation without further moves, if and only if it passes the guard: not negative, not behind the committed offset, an unanswered commit or a restore half done |
| `Commits.CommittedNeverAheadIff` | clients/python/torrent_mq/consumer.py:370-415 | over every run with any overlapping commits, rebalances and seeks, no committed offset exceeds its position, at any state and in any continuation from it, if and only if every move passes the guard |
| `Commits.CommittedNeverAhead` | clients/python/torrent_mq/consumer.py:370-415 | at the end of every run whose moves all pass the guard, no committed offset exceeds its position |
| `Commits.RebalanceDuringCommit` | clients/python/torrent_mq/consumer.py:859-893 | from any state of a guarded run, restoring a lower offset while a commit is under way lets the committed offset get ahead |
| `Commits.RebalanceDuringCommitExample` | clients/python/torrent_mq/consumer.py:859-893 | the shortest such run |
| `Commits.AnsweredCommitsDoNotCount` | clients/python/torrent_mq/consumer.py:1144-1149 | commits that have ended or marked the partition do not stand in the way of a restore of it, whatever restores of other partitions are half done |
| `Commits.PositionsNeverDecrease` | clients/python/torrent_mq/consumer.py:396-401 | over every run in which a partition is not moved, its position never decreases |
| `Polling.CutSkipsNothing` | clients/python/torrent_mq/consumer.py:999-1004 | in a cut fetch, records at or past the fetch position were returned if and only if they lie behind the new position |
| `Polling.PollSkipsNothing` | clients/python/torrent_mq/consumer.py:982-1011 | in a poll of any assignment, each fetched record at or past its fetch position is returned or is at or past the new position |
| `Polling.PollLimit` | clients/python/torrent_mq/consumer.py:982-1004 | a poll returns at most max_poll_records |
| `Polling.PollIsFirst` | clients/python/torrent_mq/consumer.py:982-1004 | a poll returns the first max_poll_records of all that the fetches give for the partitions with a position, in order |
| `Polling.PollReturnsAllThatFits` | clients/python/torrent_mq/consumer.py:982-1004 | a poll returns max_poll_records or all there are, and below the limit the whole fetch of every assigned partition with a position |
| `Polling.LosslessPolling` | clients/python/torrent_mq/consumer.py:960-1011 | over any series of polls of an assignment, what is delivered of each partition from the fetch positions on is exactly its log between its first and last position, each record once, in order |
| `Polling.OffsetManager.AdvancePosition` | clients/python/torrent_mq/consumer.py:396-401 | moves past the offset unless already past it |
| `Polling.OffsetManager.UncommittedOffsets` | clients/python/torrent_mq/consumer.py:407-415 | exactly the positions past their committed offset |
| `Polling.OffsetManager.MarkCommitted` | clients/python/torrent_mq/consumer.py:1144-1149 | each partition answered with 0 is committed up to what was asked, or at 0, and no other; by marks legal for the commit |
| `Polling.OffsetManager.SetPosition` | clients/python/torrent_mq/consumer.py:388-390 | the partition's position becomes the offset, whatever it was, and nothing else changes |
| `Polling.OffsetManager.InitOffsets` | clients/python/torrent_mq/consumer.py:859-893 | each partition with a fetched offset has it committed and as position, each other its start, and the rest is as before, up to the first partition that the policy `none` raises at; by the legal moves and two-section restores of the commit model |
| `Polling.OffsetManager.Poll` | clients/python/torrent_mq/consumer.py:960-1011 | the nested loops return the records and positions of the poll function |

## Left out

- Raft snapshots, leases, timers, leadership transfer, batching limits and persistence to disk: a restart keeps the term, the vote and the log, and nothing else of them enters the model.
- RaftNode.RaftNode.OnAppendReply: the count of requests in flight is left out; it only limits what a leader sends.
- Raft membership changes during a run: the configuration is fixed, though it may be a joint one, so `process_config_change` is not modelled.
- Memory ordering weaker than sequential consistency: the ring's loads and stores interleave but are not reordered.
- `mpmc_queue` and `concurrent_map`: they would add only easy members.
- `hit_ratio` of the LRU cache: its counters are never updated by `get`.
- The mutexes of the LRU cache: each method is one critical section.
- Endian.VarintEncode: takes the output buffer to be large enough, as the C++ function does.
- Little-endian and 16- and 32-bit byte-order conversions: easy members beside the 64-bit one.
- Tagged fields, compact array lengths and `reset` of the Go buffers: easy members.
- GoCodec.MessageRoundTrip: buffers are at most 2^63 - 1 bytes, the longest a Go slice can be.
- Record batches and CRC32C of both clients: writers and readers do not agree on the layout, and the checksum is a library call on one side and reads past its table on the other.
- UTF-8: topic names are their encoded bytes, so the decoding errors of Python's `decode` are not modelled.
- Equal partition choice in the two producers: they reduce different hash ranges, and Go's keyless choice is the clock.
- GoProducer.CompleteFutures: of the metadata only the offset is modelled; topic, partition and timestamp are the same for the whole batch.
- GoProducer.FuturesCompleteOnce: the retries inside `sendRequestWithRetry` are one outcome.
- GoProducer.NeverCompletesIff: `Close` is represented by its effect, that nothing is drained any more: it marks the producer closed before it calls `Flush`, which then returns at once.
- Python's futures: only the accumulator is modelled on that side.
- Polling.LosslessPolling: the broker's answer is any stretch of the log that starts at or before the position asked for; records below that position are returned again by the code and not counted here.
- Pausing, heartbeats, the group protocol's network rounds, sockets, TLS, SASL, logging, configuration and metrics: input and output around the logic.
- Storage, broker, security, schema, proxy, connector, streams and admin headers: declarations without bodies.
