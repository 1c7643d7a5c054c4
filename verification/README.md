# A verified model of the simulated consensus node

This project models, in Dafny, the node of a small Ruby simulation of a
Raft-like protocol: `DistributedNode` together with the three modules mixed
into it, `MessageHandler`, `PartitionHandler` and `Logger`. A node has an
identifier, a list of peers, a proposed value, a term, the candidate it voted
for, a vote tally, a replicated log, a role (follower, candidate or leader), a
liveness flag and an activity log. Nodes talk by calling each other directly.
Transmitting a request runs the receiver's whole handling, including its
reply back to the sender, before the sender records the transmission.

The protocol is Raft with several departures, and the model keeps them as
the code has them:

- a node that grants a vote for a newer term keeps its role, even as leader;
- the vote is never reset;
- a request for the node's own term is refused;
- entries are appended with no log matching;
- a vote response is counted whatever its term and whatever the receiver's role.

The model is layered the way the program is:

- `Logger` (logger.dfy): the text of the activity log. Each line is
  `[<stamp>] <activity>`, and the log reads back as its lines joined by newlines.
- `NodeState` (node_state.dfy): the node record and the node-local steps:
  recording an activity, becoming leader, and rendering activities as text.
- `MessageHandler` (message_handler.dfy): transport and the four handlers,
  as mutually recursive functions over a cluster `map<NodeId, Node>`. They
  terminate because a request provokes one reply and a reply provokes nothing.
- `DistributedNode` (distributed_node.dfy): creating nodes, registering
  peers, proposing a value and starting an election. Each of the last two has
  its per-peer loop, and both are proved from the proposer's, the candidate's
  and the peers' points of view.
- `PartitionHandler` (partition_handler.dfy): partitions, failure and recovery.
- `Simulation` (simulation.dfy): the imperative form. A `Cluster` object
  holds every node. Its methods update nodes step by step, as the Ruby code
  updates instance variables, and run the `each` loops as `while` loops. Each
  method is proved to end in the state its specification function gives.
- `Scenarios` (scenarios.dfy): the first scenario of the demonstration driver
  main.rb. Three nodes are fully meshed, then nodes 1, 2 and 3 start an
  election in turn. One might expect candidates that start together to
  refuse each other. In the code, each later candidate's request carries a
  newer term, so it is granted, and the granting leader keeps its role.
  All three nodes therefore end as leaders, in term 3, as
  `ConcurrentElections` proves.

## Model

| member | source | states |
|---|---|---|
| Logger.Stamped | lib/logger.rb:7-10 | a stored line is `[`, the stamp, `] `, then exactly the activity text |
| Logger.JoinSnoc | lib/logger.rb:12-14 | recording one more line extends the text read back by a newline and that line (just the line for an empty log) |
| Logger.Join | lib/logger.rb:13 | the lines joined by newlines: no lines give the empty text, otherwise the text begins with the first line and has room for every separator (what it means: JoinSnoc, SplitJoin) |
| Logger.SplitJoin | lib/logger.rb:12-14 | the text read back can be cut at newlines into exactly the recorded lines, when no line holds a newline |
| NodeState.NewNode | lib/distributed_node.rb:20-30 | a new node has the given identifier, term 0, no vote, no tally, no value, no peers, empty logs, is a follower and is up |
| NodeState.Record | lib/logger.rb:7-10 | the activity log grows by exactly one activity at its end; earlier activities and every other field stay |
| NodeState.BecomeLeader | lib/distributed_node.rb:63-66 | role becomes leader and one event naming the current term is recorded; nothing else changes |
| NodeState.NatTextRoundTrip | lib/distributed_node.rb:56 | the decimal text of a term reads back as that term |
| NodeState.MessageText | lib/message_handler.rb:15-21 | a message is shown as its pairs between braces, and on one line when no entry value or unknown tag holds a newline (MessageTextPlain) |
| NodeState.MessageTextPlain | lib/message_handler.rb:15-21 | a message whose entry values and tag hold no newline is rendered without a newline |
| NodeState.EventText | lib/distributed_node.rb:40-65 | the text recorded for an activity is never empty, and is one line when no proposed value or message holds a newline (EventTextPlain) |
| NodeState.EventTextPlain | lib/message_handler.rb:10-21 | every activity text (proposal, election, leadership, failed or done transmission, receipt, partition, failure, recovery) is one line when its values hold no newline |
| NodeState.RetrieveActivityLog | lib/logger.rb:12-14 | the retrieved text is empty exactly when nothing was recorded, and otherwise begins with the oldest stored line |
| NodeState.LogReadsBack | lib/logger.rb:7-14 | when no stamp or value holds a newline, the retrieved text cuts at its newlines into exactly the stored lines, oldest first |
| NodeState.RetrieveAfterRecord | lib/logger.rb:7-14 | after one more record, the retrieved text is the old text, a newline (none if the log was empty), then the new stamped line |
| MessageHandler.Transmit | lib/message_handler.rb:6-16 | only sender and target can change, the set of nodes stays, and neither node's proposed value changes (the behaviour itself: TransmitReply, TransmitFromInactive, TransmitToNonPeer, TransmitSteps) |
| MessageHandler.Receive | lib/message_handler.rb:18-23 | only receiver and sender can change, and their proposed values stay (the behaviour itself: TransmitReply, ReceiveWhenInactive) |
| MessageHandler.Handle | lib/message_handler.rb:25-34 | only receiver and sender can change; a reply can change only the receiver (the behaviour itself: HandleIgnores and the handler lemmas) |
| MessageHandler.HandleVoteRequest | lib/message_handler.rb:36-44 | only the two nodes involved can change, and their proposed values stay (the behaviour itself: VoteRequestOutcome) |
| MessageHandler.HandleVoteResponse | lib/message_handler.rb:46-52 | a refusal changes nothing; a grant adds one to the tally (unset counts as zero); the node is leader afterwards exactly when it was or the new tally exceeds half its peers; term, vote and log stay |
| MessageHandler.HandleAppendEntries | lib/message_handler.rb:54-64 | only the two nodes involved can change, and their proposed values stay (the behaviour itself: AppendEntriesOutcome) |
| MessageHandler.TransmitSteps | lib/message_handler.rb:6-64 | any transmission, with all it triggers, keeps every node's identity, peers, liveness and value; terms, logs, activity logs and tallies never shrink; nobody becomes leader without a majority |
| MessageHandler.ReceiveSteps | lib/message_handler.rb:18-23 | the same progress property for receiving |
| MessageHandler.HandleSteps | lib/message_handler.rb:25-34 | the same progress property for dispatch |
| MessageHandler.HandleVoteRequestSteps | lib/message_handler.rb:36-44 | the same progress property for a vote request |
| MessageHandler.HandleAppendEntriesSteps | lib/message_handler.rb:54-64 | the same progress property for an append-entries request |
| MessageHandler.TransmitReply | lib/message_handler.rb:6-23 | sending a reply to another node: nothing if the sender is down, a failure event if the target is not a peer, else the target absorbs it and then the sender records the send |
| MessageHandler.TransmitFromInactive | lib/message_handler.rb:7 | a failed sender changes nothing |
| MessageHandler.TransmitToNonPeer | lib/message_handler.rb:9-12 | sending to a non-peer records one failure event on the sender and changes no other node |
| MessageHandler.ReceiveWhenInactive | lib/message_handler.rb:19 | a failed node drops a message without a trace |
| MessageHandler.HandleIgnores | lib/message_handler.rb:25-34 | append-entries responses and unknown kinds change nothing |
| MessageHandler.VoteRequestOutcome | lib/message_handler.rb:36-44 | a vote request is granted exactly when its term is newer: the term is adopted and the candidate remembered, the role is kept; the reply carries the term after handling and reaches the candidate |
| MessageHandler.OneGrantPerTerm | lib/message_handler.rb:36-44 | after granting a term to one candidate, a second request for that term is refused and the vote stays |
| MessageHandler.AppendEntriesOutcome | lib/message_handler.rb:54-64 | an append-entries request is refused, with no local change, exactly when the local term is newer; otherwise term adopted, follower, entries appended as they are; the sender ignores the reply |
| DistributedNode.AddNode | lib/distributed_node.rb:20-30 | a new node joins under its identifier; other nodes stay; a well-formed cluster stays well formed |
| DistributedNode.RegisterPeer | lib/distributed_node.rb:33-35 | the peers gain the new peer at the end unless already present; no duplicates arise; other nodes and fields stay |
| DistributedNode.RegisterPeerIdempotent | lib/distributed_node.rb:33-35 | registering the same peer twice equals registering it once |
| DistributedNode.Proposal | lib/distributed_node.rb:38-41 | the value becomes the current state and, with the current term, the last log entry; the proposal is recorded; nothing else changes |
| DistributedNode.SuggestState | lib/distributed_node.rb:38-47 | the set of nodes stays (the behaviour itself: ProposalTaken, ProposalAnnounced, ProposalReachesPeers, ProposalKeepsMembership) |
| DistributedNode.ReplicateToPeers | lib/distributed_node.rb:44-46 | the set of nodes stays (the behaviour itself: the Replication lemmas) |
| DistributedNode.Candidacy | lib/distributed_node.rb:52-56 | next term, own vote, candidate with a tally of one, the election recorded; nothing else changes |
| DistributedNode.StartElection | lib/distributed_node.rb:49-61 | the set of nodes stays; a failed node changes nothing (the behaviour of an active node: the Election lemmas) |
| DistributedNode.RequestVotes | lib/distributed_node.rb:58-60 | the set of nodes stays (the behaviour itself: the Votes lemmas) |
| DistributedNode.AppendEntriesExchange | lib/distributed_node.rb:45 | one append-entries request: the peer takes it as Accept says, the sender records the reply (when it comes back) and then the send, and its protocol state stays |
| DistributedNode.AbsorbVoteReply | lib/message_handler.rb:46-52 | a candidate absorbing a vote reply counts it as handle_vote_response does and sends nothing |
| DistributedNode.VoteExchange | lib/distributed_node.rb:59 | one vote request: the peer grants as Grant says; the candidate counts the grant when it comes back, keeps term, peers and liveness, and records the send |
| DistributedNode.ReplicationProgresses | lib/distributed_node.rb:44-46 | the replication loop changes nodes only as the progress property allows |
| DistributedNode.VotingProgresses | lib/distributed_node.rb:58-60 | the vote-request loop changes nodes only as the progress property allows |
| DistributedNode.ReplicateFromInactive | lib/distributed_node.rb:44-46 | a failed node's replication loop changes nothing |
| DistributedNode.ReplicationStep | lib/distributed_node.rb:45 | one turn of the replication loop: the sender keeps its protocol state, term and value and adds the request to its sends; the peer takes it as Accept says |
| DistributedNode.ReplicationAdvance | lib/distributed_node.rb:44-46 | one turn of the replication loop, and the rest of the loop continues with the same request |
| DistributedNode.ReplicationKeepsSender | lib/distributed_node.rb:44-46 | the replication loop leaves the sender's protocol state alone |
| DistributedNode.ReplicationAnnounces | lib/distributed_node.rb:44-46 | the sender sends each target, in order, one request with its term and value |
| DistributedNode.ReplicationReachesPeers | lib/distributed_node.rb:44-46 | each target takes the request as Accept says; non-targets are untouched |
| DistributedNode.GrantCount | lib/message_handler.rb:36-52 | the number of targets whose grant comes back is at most the number of targets |
| DistributedNode.VoteStep | lib/distributed_node.rb:59 | one vote request as the candidate sees it: the grant is counted, the role follows the tally, term, vote and log stay |
| DistributedNode.VoteAdvance | lib/distributed_node.rb:58-60 | one turn of the vote-request loop, and the rest continues with the same term |
| DistributedNode.VotesTallied | lib/distributed_node.rb:58-60 | the loop adds one vote per grant that comes back |
| DistributedNode.VotesCounted | lib/distributed_node.rb:58-60 | tally as above; leader afterwards exactly when leader before or some grant lifted the tally above half the peers |
| DistributedNode.VotesKeepCandidate | lib/distributed_node.rb:58-60 | the loop keeps the candidate's term, vote and log |
| DistributedNode.VotesRequested | lib/distributed_node.rb:58-60 | each target is asked once, in order, with the candidate's term |
| DistributedNode.VotesReachPeers | lib/distributed_node.rb:58-60 | each target grants or refuses as Grant says; non-targets are untouched |
| DistributedNode.ProposalFrame | lib/distributed_node.rb:38-47 | suggest_state is the proposal followed, for a leader, by the replication loop over the peers |
| DistributedNode.ProposalTaken | lib/distributed_node.rb:38-41 | the value becomes current state and the last log entry, the proposal is the next activity, nothing else of the node changes; a non-leader or failed node records nothing more |
| DistributedNode.ProposalAnnounced | lib/distributed_node.rb:42-46 | an active leader sends one append-entries request with its term and the value to each peer, in order; any other node sends nothing |
| DistributedNode.ProposalReachesPeers | lib/distributed_node.rb:42-46 | under an active leader each peer takes the entry as Accept says; no other node changes, and under a non-leader or failed node only the proposer changes |
| DistributedNode.ProposalKeepsMembership | lib/distributed_node.rb:38-47 | no node's identity, peers or liveness change, and well-formedness is kept |
| DistributedNode.ElectionKeepsMembership | lib/distributed_node.rb:49-61 | no node's identity, peers or liveness change, and well-formedness is kept |
| DistributedNode.CandidacyFrame | lib/distributed_node.rb:49-56 | start_election is the candidacy followed by the vote-request loop over the peers |
| DistributedNode.ElectionKeepsCandidacy | lib/distributed_node.rb:52-54 | the candidate ends in the next term, having voted for itself, its log unchanged |
| DistributedNode.ElectionTally | lib/distributed_node.rb:55-60 | the tally ends at one plus the number of grants that came back |
| DistributedNode.ElectionOutcome | lib/distributed_node.rb:49-61 | the candidate ends leader exactly when at least one grant came back and the tally exceeds half its peers, else candidate |
| DistributedNode.ElectionAnnounced | lib/distributed_node.rb:56-60 | the election is recorded first, then one vote request for the new term to each peer, in order |
| DistributedNode.ElectionReachesPeers | lib/distributed_node.rb:58-60 | each peer grants or refuses as Grant says; non-peers are untouched |
| PartitionHandler.Without | lib/partition_handler.rb:7 | array difference keeps exactly the elements not listed, and is no longer |
| PartitionHandler.WithoutAppend | lib/partition_handler.rb:7 | the difference keeps the order of what it keeps |
| PartitionHandler.WithoutNone | lib/partition_handler.rb:7 | nothing listed occurs: the list is unchanged |
| PartitionHandler.WithoutAbsorb | lib/partition_handler.rb:7 | cutting again what was already cut changes nothing |
| PartitionHandler.WithoutNoDup | lib/partition_handler.rb:7 | a duplicate-free list stays duplicate-free |
| PartitionHandler.DetachAll | lib/partition_handler.rb:8-10 | the set of nodes stays (the behaviour itself: DetachAllOutcome) |
| PartitionHandler.DetachAllOutcome | lib/partition_handler.rb:8-10 | each listed node, however often listed, loses the node from its peers; others are untouched |
| PartitionHandler.SimulatePartition | lib/partition_handler.rb:6-12 | the set of nodes stays (the behaviour itself: PartitionOutcome, PartitionSeparates, PartitionKeepsProtocol, PartitionValid) |
| PartitionHandler.PartitionOutcome | lib/partition_handler.rb:6-12 | the node keeps its unlisted peers in order and records one activity; listed nodes lose it from their peers; nothing else changes |
| PartitionHandler.PartitionSeparates | lib/partition_handler.rb:7-10 | afterwards no listed node is the node's peer and the node is no listed node's peer |
| PartitionHandler.PartitionKeepsProtocol | lib/partition_handler.rb:6-12 | terms, roles, votes, tallies, liveness, values and logs stay; only the node records an activity |
| PartitionHandler.PartitionValid | lib/partition_handler.rb:6-12 | a well-formed cluster stays well formed |
| PartitionHandler.SimulatePartitionAsWritten | lib/partition_handler.rb:6-12 | as written: the call returns only for an empty list; the node's own peers lose the listed nodes; every other node is left as it was |
| PartitionHandler.PartitionAsWrittenRaises | lib/partition_handler.rb:6-12 | as written, an empty list partitions as intended; any other list raises after cutting only the node's own peers, recording nothing |
| PartitionHandler.PartitionAsWrittenOneSided | lib/partition_handler.rb:7-9 | a concrete cluster where the written partition leaves the other side still peered, unlike the intended one |
| PartitionHandler.Failure | lib/partition_handler.rb:14-17 | the node goes down and records it; nothing else changes |
| PartitionHandler.Recovery | lib/partition_handler.rb:19-22 | the node comes back up and records it; term, role, log and peers are as they were |
| PartitionHandler.FailThenRecover | lib/partition_handler.rb:14-22 | failure then recovery restores the protocol state of an up node, adding the two events |
| PartitionHandler.FailedIsSilent | lib/partition_handler.rb:14-17 | after a failure, sending from or delivering to the node changes nothing |
| Simulation.Cluster.AddNode | lib/distributed_node.rb:20-30 | the run's nodes become AddNode of the old ones |
| Simulation.Cluster.RecordActivity | lib/logger.rb:7-10 | the node becomes Record of its old state |
| Simulation.Cluster.RegisterPeer | lib/distributed_node.rb:33-35 | the nodes become RegisterPeer of the old ones |
| Simulation.Cluster.BecomeLeader | lib/distributed_node.rb:63-66 | the node becomes BecomeLeader of its old state |
| Simulation.Cluster.TransmitMessage | lib/message_handler.rb:6-16 | the nodes become Transmit of the old ones |
| Simulation.Cluster.ReceiveMessage | lib/message_handler.rb:18-23 | the nodes become Receive of the old ones |
| Simulation.Cluster.HandleMessage | lib/message_handler.rb:25-34 | the nodes become Handle of the old ones |
| Simulation.Cluster.HandleVoteRequest | lib/message_handler.rb:36-44 | the nodes become HandleVoteRequest of the old ones |
| Simulation.Cluster.HandleVoteResponse | lib/message_handler.rb:46-52 | the node becomes HandleVoteResponse of its old state |
| Simulation.Cluster.HandleAppendEntries | lib/message_handler.rb:54-64 | the nodes become HandleAppendEntries of the old ones |
| Simulation.Cluster.SuggestState | lib/distributed_node.rb:38-47 | the in-place loop over the peers ends in SuggestState of the old nodes |
| Simulation.Cluster.StartElection | lib/distributed_node.rb:49-61 | the in-place loop over the peers ends in StartElection of the old nodes |
| Simulation.Cluster.SimulatePartition | lib/partition_handler.rb:6-12 | the in-place loop over the listed nodes ends in SimulatePartition of the old nodes |
| Simulation.Cluster.SimulateFailure | lib/partition_handler.rb:14-17 | the node becomes Failure of its old state |
| Simulation.Cluster.RecoverFromFailure | lib/partition_handler.rb:19-22 | the node becomes Recovery of its old state |
| Scenarios.MeshNodes | main.rb:7-17 | the driver's setup gives three fresh nodes, each with the other two as peers in registration order |
| Scenarios.FreshMeshReady | main.rb:7-17 | such a cluster is well formed, all up, all followers in term 0 |
| Scenarios.MeshReady | main.rb:7-17 | the driver's setup is ready for the scenario |
| Scenarios.MeshGrants | main.rb:21-23 | in the mesh at a common term, both peers of a candidate for the next term grant and the grants come back |
| Scenarios.MeshStep | main.rb:21-23 | after such an election the mesh is at the next term and the peers keep their roles |
| Scenarios.ElectionInMesh | main.rb:21-23 | each election in the mesh makes the candidate leader and moves everyone to the next term, peers keeping their roles |
| Scenarios.ConcurrentElections | main.rb:19-23 | nodes 1, 2 and 3 electing in turn all end as leaders, three terms later |

## Left out

- Wall-clock time: `record_activity` reads the clock each time it records. Every operation instead takes the formatted stamp `now` as a parameter, read once per operation. All records of one operation share that stamp, including those its nested deliveries make on other nodes. The equal stamps in the exchange lemmas come from this, not from the code.
- Activity text: a message is rendered in the older `{:key=>value}` form of Ruby's Hash inspection, and values are not escaped. The log is held as (stamp, event) records, with the text derived by `RetrieveActivityLog`.
- Proposed values are strings (`Value = string`). `suggest_state` takes any object, renders it with `to_s` in its activity and with `inspect` inside a message. The model shows a value as written in the first place and between double quotes, without escaping, in the second.
- Object identity: peers are node identifiers, and all nodes live in one map under their identifiers. The `Cluster` class holds that map. Aliasing between separate Ruby objects is not modelled beyond this.
- Messages are typed values: a message hash with missing or ill-typed fields cannot be expressed. An unknown `:type` is the `Unrecognised` kind.
- Concurrency: the source has none. Delivery is a synchronous nested call, and the model keeps that order.
- lib/node.rb is not part of this model.
- main.rb calls `add_neighbour` and `propose_state`, which `DistributedNode` does not define. The scenario lemmas read them as `register_peer` and `suggest_state`. Only the driver's first scenario is modelled. Its later scenarios, and its resetting of logs through `instance_variable_set`, are left out.
- `retrieve_activity_log` is the function `NodeState.RetrieveActivityLog`. It changes nothing, so `Cluster` has no method for it.
- DistributedNode.SuggestState: requires the node to be Linked (its peers exist and are held once each). Every cluster built with AddNode, RegisterPeer and the other operations stays Valid, as AddNode, RegisterPeer, PartitionValid and the membership lemmas show. Its own contract states only that the set of nodes stays; the lemmas named in its row state what it does.
- DistributedNode.StartElection: requires the node to be Linked, as for SuggestState. Its own contract states only that the set of nodes stays and that a failed node changes nothing; the Election lemmas state the rest.
- DistributedNode.ProposalFrame: proved only for a node that is not its own peer. `register_peer` would accept the node itself, and the nested self-delivery that would cause is not analysed.
- DistributedNode.ProposalTaken: proved only for a node that is not its own peer, as above.
- DistributedNode.ProposalAnnounced: proved only for a node that is not its own peer, as above.
- DistributedNode.ProposalReachesPeers: proved only for a node that is not its own peer, as above.
- DistributedNode.CandidacyFrame: proved only for an active node that is not its own peer. A failed node's election is covered by StartElection's own contract.
- DistributedNode.ElectionKeepsCandidacy: proved only for an active node that is not its own peer, as above.
- DistributedNode.ElectionTally: proved only for an active node that is not its own peer, as above.
- DistributedNode.ElectionOutcome: proved only for an active node that is not its own peer, as above.
- DistributedNode.ElectionAnnounced: proved only for an active node that is not its own peer, as above.
- DistributedNode.ElectionReachesPeers: proved only for an active node that is not its own peer, as above.
- MessageHandler.VoteRequestOutcome: stated for an active receiver and a sender other than itself. A failed receiver is covered by ReceiveWhenInactive.
- MessageHandler.AppendEntriesOutcome: stated for an active receiver and a sender other than itself, as above.
- MessageHandler.Transmit: its own contract states only which nodes may change; what it does is stated by the lemmas named in its row.
- MessageHandler.Receive: its own contract states only which nodes may change; what it does is stated by the lemmas named in its row.
- MessageHandler.Handle: its own contract states only which nodes may change; what it does is stated by the lemmas named in its row.
- MessageHandler.HandleVoteRequest: its own contract states only which nodes may change; what it does is stated by the lemmas named in its row.
- MessageHandler.HandleAppendEntries: its own contract states only which nodes may change; what it does is stated by the lemmas named in its row.
- DistributedNode.ReplicateToPeers: its own contract states only that the set of nodes stays; what it does is stated by the lemmas named in its row.
- DistributedNode.RequestVotes: its own contract states only that the set of nodes stays; what it does is stated by the lemmas named in its row.
- PartitionHandler.DetachAll: its own contract states only that the set of nodes stays; what it does is stated by the lemmas named in its row.
- PartitionHandler.SimulatePartition: its own contract states only that the set of nodes stays; what it does is stated by the lemmas named in its row.

## Findings

| source | as written | input that shows it | evidently intended | confidence | as-written member | corrected member |
|---|---|---|---|---|---|---|
| lib/partition_handler.rb:9 | `node.peers -= [self]` calls a writer `peers=` that nodes do not have (only `attr_reader :peers`). NoMethodError is raised at the first listed node, after the node's own peers were cut and before anything is recorded | nodes 1 and 2 peered with each other; node 1 partitions `[node 2]`; node 2 still holds node 1 as a peer | each listed node drops the partitioning node from its peers, and the partition is recorded | high; not executed | PartitionHandler.PartitionAsWrittenOneSided | PartitionHandler.PartitionSeparates |
