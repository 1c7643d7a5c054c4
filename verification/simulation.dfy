/** The nodes as the program runs them: every operation updates node fields in
    place, one step after another. A `Cluster` holds every node of a run under
    its identifier; each method below performs one operation of a node the way
    the source does and is proved to end in the state the specification
    function of that operation gives. */
module Simulation {
  import opened NodeState
  import opened MessageHandler
  import DistributedNode
  import PartitionHandler

  class Cluster {
    var nodes: Nodes

    /** An empty run: no node exists yet. */
    constructor()
      ensures nodes == map[]
    {
      nodes := map[];
    }

    /** `DistributedNode.new(id)`: a fresh node joins the run. */
    method AddNode(id: NodeId)
      modifies this
      requires id !in nodes
      ensures nodes == DistributedNode.AddNode(old(nodes), id)
    {
      nodes := nodes[id := NewNode(id)];
    }

    /** `record_activity`: the activity is appended to the node's log in place. */
    method RecordActivity(k: NodeId, e: Event, now: Stamp)
      modifies this
      requires k in nodes
      ensures nodes == old(nodes)[k := Record(old(nodes)[k], e, now)]
    {
      var n := nodes[k];
      nodes := nodes[k := n.(activityLog := n.activityLog + [Activity(now, e)])];
    }

    /** `register_peer`. */
    method RegisterPeer(self: NodeId, peer: NodeId)
      modifies this
      requires self in nodes
      ensures nodes == DistributedNode.RegisterPeer(old(nodes), self, peer)
    {
      var n := nodes[self];
      if peer !in n.peers {
        nodes := nodes[self := n.(peers := n.peers + [peer])];
      }
    }

    /** `become_leader`. */
    method BecomeLeader(self: NodeId, now: Stamp)
      modifies this
      requires self in nodes
      ensures nodes == old(nodes)[self := NodeState.BecomeLeader(old(nodes)[self], now)]
    {
      nodes := nodes[self := nodes[self].(role := Leader)];
      RecordActivity(self, BecameLeader(nodes[self].term), now);
    }

    /** `transmit_message`. */
    method TransmitMessage(from: NodeId, to: NodeId, m: Message, now: Stamp)
      modifies this
      requires from in nodes && to in nodes
      ensures nodes == Transmit(old(nodes), from, to, m, now)
      decreases Rank(m), 3
    {
      if !nodes[from].active {
        return;
      }
      if to !in nodes[from].peers {
        RecordActivity(from, TransmitFailed(to), now);
        return;
      }
      ReceiveMessage(to, from, m, now);
      RecordActivity(from, Transmitted(to, m), now);
    }

    /** `receive_message`. */
    method ReceiveMessage(self: NodeId, from: NodeId, m: Message, now: Stamp)
      modifies this
      requires self in nodes && from in nodes
      ensures nodes == Receive(old(nodes), self, from, m, now)
      decreases Rank(m), 2
    {
      if !nodes[self].active {
        return;
      }
      RecordActivity(self, Received(from, m), now);
      HandleMessage(self, from, m, now);
    }

    /** `handle_message`. */
    method HandleMessage(self: NodeId, from: NodeId, m: Message, now: Stamp)
      modifies this
      requires self in nodes && from in nodes
      ensures nodes == Handle(old(nodes), self, from, m, now)
      decreases Rank(m), 1
    {
      match m
      case VoteRequest(t) => HandleVoteRequest(self, from, t, now);
      case VoteResponse(_, granted) => HandleVoteResponse(self, granted, now);
      case AppendEntries(t, entries) => HandleAppendEntries(self, from, t, entries, now);
      case _ =>
    }

    /** `handle_vote_request`. */
    method HandleVoteRequest(self: NodeId, from: NodeId, t: nat, now: Stamp)
      modifies this
      requires self in nodes && from in nodes
      ensures nodes == MessageHandler.HandleVoteRequest(old(nodes), self, from, t, now)
      decreases 1, 0
    {
      if t > nodes[self].term {
        nodes := nodes[self := nodes[self].(term := t)];
        nodes := nodes[self := nodes[self].(votedFor := Some(from))];
        assert nodes == old(nodes)[self := old(nodes)[self].(term := t, votedFor := Some(from))];
        TransmitMessage(self, from, VoteResponse(nodes[self].term, true), now);
      } else {
        TransmitMessage(self, from, VoteResponse(nodes[self].term, false), now);
      }
    }

    /** `handle_vote_response`. */
    method HandleVoteResponse(self: NodeId, granted: bool, now: Stamp)
      modifies this
      requires self in nodes
      ensures nodes == old(nodes)[self := MessageHandler.HandleVoteResponse(old(nodes)[self], granted, now)]
    {
      if !granted {
        return;
      }
      var votes := VoteCount(nodes[self]);
      nodes := nodes[self := nodes[self].(votes := Some(votes + 1))];
      if votes + 1 > |nodes[self].peers| / 2 {
        BecomeLeader(self, now);
      }
    }

    /** `handle_append_entries`. */
    method HandleAppendEntries(self: NodeId, from: NodeId, t: nat, entries: seq<LogEntry>, now: Stamp)
      modifies this
      requires self in nodes && from in nodes
      ensures nodes == MessageHandler.HandleAppendEntries(old(nodes), self, from, t, entries, now)
      decreases 1, 0
    {
      if !(t >= nodes[self].term) {
        TransmitMessage(self, from, AppendEntriesResponse(nodes[self].term, false), now);
        return;
      }
      nodes := nodes[self := nodes[self].(term := t)];
      nodes := nodes[self := nodes[self].(role := Follower)];
      nodes := nodes[self := nodes[self].(logEntries := nodes[self].logEntries + entries)];
      ghost var n := old(nodes)[self];
      assert nodes == old(nodes)[self := n.(term := t, role := Follower, logEntries := n.logEntries + entries)];
      TransmitMessage(self, from, AppendEntriesResponse(nodes[self].term, true), now);
    }

    /** `suggest_state`: take the value, then, as leader, send it to each peer in
        turn, building each message from the term and value held at that moment. */
    method SuggestState(self: NodeId, v: Value, now: Stamp)
      modifies this
      requires self in nodes && Linked(nodes, self)
      ensures nodes == DistributedNode.SuggestState(old(nodes), self, v, now)
    {
      nodes := nodes[self := nodes[self].(currentState := Some(v))];
      RecordActivity(self, SuggestedState(v), now);
      nodes := nodes[self := nodes[self].(logEntries := nodes[self].logEntries + [LogEntry(nodes[self].term, v)])];
      assert nodes == old(nodes)[self := DistributedNode.Proposal(old(nodes)[self], v, now)];
      if nodes[self].role != Leader {
        return;
      }
      var peers := nodes[self].peers;
      var i := 0;
      while i < |peers|
        invariant 0 <= i <= |peers|
        invariant self in nodes && nodes[self].currentState.Some?
        invariant forall p :: p in peers[i..] ==> p in nodes
        invariant DistributedNode.ReplicateToPeers(nodes, self, peers[i..], now)
          == DistributedNode.SuggestState(old(nodes), self, v, now)
        decreases |peers| - i
      {
        var n := nodes[self];
        assert peers[i] in peers[i..];
        assert peers[i..][1..] == peers[i + 1..];
        TransmitMessage(self, peers[i], AppendEntries(n.term, [LogEntry(n.term, n.currentState.value)]), now);
        i := i + 1;
      }
    }

    /** `start_election`: a failed node does nothing; otherwise declare the
        candidacy and ask each peer in turn, with the term held at that moment. */
    method StartElection(self: NodeId, now: Stamp)
      modifies this
      requires self in nodes && Linked(nodes, self)
      ensures nodes == DistributedNode.StartElection(old(nodes), self, now)
    {
      if !nodes[self].active {
        return;
      }
      nodes := nodes[self := nodes[self].(term := nodes[self].term + 1)];
      nodes := nodes[self := nodes[self].(votedFor := Some(self))];
      nodes := nodes[self := nodes[self].(role := Candidate)];
      nodes := nodes[self := nodes[self].(votes := Some(1))];
      RecordActivity(self, StartedElection(nodes[self].term), now);
      assert nodes == old(nodes)[self := DistributedNode.Candidacy(old(nodes)[self], now)];
      var peers := nodes[self].peers;
      var i := 0;
      while i < |peers|
        invariant 0 <= i <= |peers|
        invariant self in nodes
        invariant forall p :: p in peers[i..] ==> p in nodes
        invariant DistributedNode.RequestVotes(nodes, self, peers[i..], now)
          == DistributedNode.StartElection(old(nodes), self, now)
        decreases |peers| - i
      {
        assert peers[i] in peers[i..];
        assert peers[i..][1..] == peers[i + 1..];
        TransmitMessage(self, peers[i], VoteRequest(nodes[self].term), now);
        i := i + 1;
      }
    }

    /** `simulate_partition`: cut the listed nodes from the peers, then have
        each listed node in turn cut this one from its own, then record it. */
    method SimulatePartition(self: NodeId, ns: seq<NodeId>, now: Stamp)
      modifies this
      requires self in nodes && forall p :: p in ns ==> p in nodes
      ensures nodes == PartitionHandler.SimulatePartition(old(nodes), self, ns, now)
    {
      nodes := nodes[self := nodes[self].(peers := PartitionHandler.Without(nodes[self].peers, ns))];
      ghost var cut := nodes;
      var i := 0;
      while i < |ns|
        invariant 0 <= i <= |ns|
        invariant nodes.Keys == old(nodes).Keys
        invariant PartitionHandler.DetachAll(nodes, self, ns[i..]) == PartitionHandler.DetachAll(cut, self, ns)
        decreases |ns| - i
      {
        var p := ns[i];
        assert p in ns;
        assert ns[i..][1..] == ns[i + 1..];
        nodes := nodes[p := nodes[p].(peers := PartitionHandler.Without(nodes[p].peers, [self]))];
        i := i + 1;
      }
      assert ns[i..] == [];
      RecordActivity(self, Partitioned(ns), now);
    }

    /** `simulate_failure`. */
    method SimulateFailure(self: NodeId, now: Stamp)
      modifies this
      requires self in nodes
      ensures nodes == old(nodes)[self := PartitionHandler.Failure(old(nodes)[self], now)]
    {
      nodes := nodes[self := nodes[self].(active := false)];
      RecordActivity(self, Failed(nodes[self].id), now);
    }

    /** `recover_from_failure`. */
    method RecoverFromFailure(self: NodeId, now: Stamp)
      modifies this
      requires self in nodes
      ensures nodes == old(nodes)[self := PartitionHandler.Recovery(old(nodes)[self], now)]
    {
      nodes := nodes[self := nodes[self].(active := true)];
      RecordActivity(self, Recovered(nodes[self].id), now);
    }
  }
}
