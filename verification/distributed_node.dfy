/** The driver operations of a node (lib/distributed_node.rb): creating a node,
    registering peers, proposing a value and starting an election. Proposals and
    elections send one message to each peer, in peer order; each send runs to
    completion, reply included, before the next one starts. */
module DistributedNode {
  import opened NodeState
  import opened MessageHandler

  /** `DistributedNode.new`: a node with a fresh identifier joins the cluster. */
  function AddNode(c: Nodes, id: NodeId): (r: Nodes)
    requires id !in c
    ensures r.Keys == c.Keys + {id} && r[id] == NewNode(id)
    ensures forall k :: k in c ==> r[k] == c[k]
    ensures Valid(c) ==> Valid(r)
  {
    c[id := NewNode(id)]
  }

  /** `register_peer`: append the peer unless it is already there. */
  function RegisterPeer(c: Nodes, self: NodeId, peer: NodeId): (r: Nodes)
    requires self in c
    ensures r.Keys == c.Keys && forall k :: k in c && k != self ==> r[k] == c[k]
    ensures r[self] == c[self].(peers := r[self].peers)
    ensures c[self].peers <= r[self].peers
    ensures forall p :: p in r[self].peers <==> p in c[self].peers || p == peer
    ensures NoDup(c[self].peers) ==> NoDup(r[self].peers)
    ensures peer in c[self].peers ==> r == c
    ensures Valid(c) && peer in c ==> Valid(r)
  {
    var n := c[self];
    if peer in n.peers then c
    else
      NoDupSnoc(n.peers, peer);
      c[self := n.(peers := n.peers + [peer])]
  }

  /** Registering the same peer twice is the same as registering it once. */
  lemma RegisterPeerIdempotent(c: Nodes, self: NodeId, peer: NodeId)
    requires self in c
    ensures RegisterPeer(RegisterPeer(c, self, peer), self, peer) == RegisterPeer(c, self, peer)
  {
  }

  /** The node once it has taken a proposed value: the value is its current
      state and, with the current term, the newest entry of its log, and the
      proposal is recorded. */
  function Proposal(n: Node, v: Value, now: Stamp): (r: Node)
    ensures r.currentState == Some(v) && r.logEntries == n.logEntries + [LogEntry(n.term, v)]
    ensures r.activityLog == n.activityLog + [Activity(now, SuggestedState(v))]
    ensures r.(currentState := n.currentState, logEntries := n.logEntries, activityLog := n.activityLog) == n
  {
    Record(n.(currentState := Some(v)), SuggestedState(v), now).(logEntries := n.logEntries + [LogEntry(n.term, v)])
  }

  /** `suggest_state`: the value becomes the current state and is appended, with
      the current term, to the node's own log, whatever its role or liveness; a
      leader then sends it to every peer. */
  function SuggestState(c: Nodes, self: NodeId, v: Value, now: Stamp): (r: Nodes)
    requires self in c && Linked(c, self)
    ensures r.Keys == c.Keys
  {
    var n := c[self];
    if n.role != Leader then c[self := Proposal(n, v, now)]
    else ReplicateToPeers(c[self := Proposal(n, v, now)], self, n.peers, now)
  }

  /** The `@peers.each` loop of `suggest_state`: each message is built from the
      term and current state the node holds when it is sent. */
  function ReplicateToPeers(c: Nodes, self: NodeId, targets: seq<NodeId>, now: Stamp): (r: Nodes)
    requires self in c && c[self].currentState.Some?
    requires forall p :: p in targets ==> p in c
    ensures r.Keys == c.Keys
    decreases |targets|
  {
    if targets == [] then c
    else
      var n := c[self];
      var sent := Transmit(c, self, targets[0], AppendEntries(n.term, [LogEntry(n.term, n.currentState.value)]), now);
      ReplicateToPeers(sent, self, targets[1..], now)
  }

  /** The node at the start of an election: next term, its own vote, candidate
      with a tally of one, and the election recorded. */
  function Candidacy(n: Node, now: Stamp): (r: Node)
    ensures r.term == n.term + 1 && r.votedFor == Some(n.id) && r.role == Candidate && r.votes == Some(1)
    ensures r.activityLog == n.activityLog + [Activity(now, StartedElection(n.term + 1))]
    ensures r.(term := n.term, votedFor := n.votedFor, role := n.role, votes := n.votes, activityLog := n.activityLog) == n
  {
    Record(n.(term := n.term + 1, votedFor := Some(n.id), role := Candidate, votes := Some(1)),
           StartedElection(n.term + 1), now)
  }

  /** `start_election`: a failed node does nothing; an active one moves to the
      next term, votes for itself, becomes candidate with one vote and asks every
      peer for its vote. */
  function StartElection(c: Nodes, self: NodeId, now: Stamp): (r: Nodes)
    requires self in c && Linked(c, self)
    ensures r.Keys == c.Keys
    ensures !c[self].active ==> r == c
  {
    var n := c[self];
    if !n.active then c
    else RequestVotes(c[self := Candidacy(n, now)], self, n.peers, now)
  }

  /** The `@peers.each` loop of `start_election`: each request carries the term
      the node holds when it is sent. */
  function RequestVotes(c: Nodes, self: NodeId, targets: seq<NodeId>, now: Stamp): (r: Nodes)
    requires self in c
    requires forall p :: p in targets ==> p in c
    ensures r.Keys == c.Keys
    decreases |targets|
  {
    if targets == [] then c
    else RequestVotes(Transmit(c, self, targets[0], VoteRequest(c[self].term), now), self, targets[1..], now)
  }

  // What the sender's activity log says it sent.

  /** The transmissions a node's activity log records, oldest first. */
  function Sent(log: seq<Activity>): seq<Event>
  {
    if log == [] then []
    else Sent(log[..|log| - 1]) + (if log[|log| - 1].event.Transmitted? then [log[|log| - 1].event] else [])
  }

  lemma SentSnoc(log: seq<Activity>, a: Activity)
    ensures Sent(log + [a]) == Sent(log) + (if a.event.Transmitted? then [a.event] else [])
  {
    assert (log + [a])[..|log|] == log;
  }

  /** One transmission of message `m` to each target, in order. */
  function Announced(targets: seq<NodeId>, m: Message): (events: seq<Event>)
    ensures |events| == |targets|
  {
    seq(|targets|, i requires 0 <= i < |targets| => Transmitted(targets[i], m))
  }

  // One request and its reply.

  /** Whether a vote request from `candidate` reaches `q`, is granted, and the
      grant makes it back. */
  predicate GrantsBack(q: Node, candidate: NodeId, t: nat) {
    q.active && t > q.term && candidate in q.peers
  }

  /** Sending one append-entries request to another peer: the peer accepts or
      refuses it, its reply (if it has a link back) is recorded by the sender and
      ignored, and only then does the sender record the transmission. */
  lemma AppendEntriesExchange(c: Nodes, s: NodeId, p: NodeId, t: nat, entries: seq<LogEntry>, now: Stamp)
    requires s in c && p in c && s != p && c[s].active && p in c[s].peers
    ensures var r := Transmit(c, s, p, AppendEntries(t, entries), now);
      var q := c[p];
      var reply := AppendEntriesResponse(Accept(q, t, entries).term, q.active && t >= q.term);
      && r.Keys == c.Keys && Untouched(c, r, s, p)
      && Protocol(r[p]) == Protocol(Accept(q, t, entries))
      && Protocol(r[s]) == Protocol(c[s])
      && r[s].activityLog == c[s].activityLog
           + (if q.active && s in q.peers then [Activity(now, Received(p, reply))] else [])
           + [Activity(now, Transmitted(p, AppendEntries(t, entries)))]
  {
    var m := AppendEntries(t, entries);
    var q := c[p];
    if q.active {
      var got := c[p := Record(q, Received(s, m), now)];
      AppendEntriesOutcome(got, p, s, t, entries, now);
      var delivered := HandleAppendEntries(got, p, s, t, entries, now);
      assert Receive(c, p, s, m, now) == delivered;
      assert Transmit(c, s, p, m, now) == delivered[s := Record(delivered[s], Transmitted(p, m), now)];
    }
  }

  /** Activities that are not transmissions leave the record of transmissions alone. */
  lemma {:induction false} SentSkips(log: seq<Activity>, more: seq<Activity>)
    requires forall i :: 0 <= i < |more| ==> !more[i].event.Transmitted?
    ensures Sent(log + more) == Sent(log)
  {
    if more != [] {
      var front := more[..|more| - 1];
      var last := more[|more| - 1];
      assert log + more == (log + front) + [last];
      assert !last.event.Transmitted?;
      SentSnoc(log + front, last);
      SentSkips(log, front);
    } else {
      assert log + more == log;
    }
  }

  /** A candidate absorbing a vote reply counts it as `HandleVoteResponse` does
      and transmits nothing. */
  lemma AbsorbVoteReply(n: Node, p: NodeId, t: nat, granted: bool, now: Stamp)
    requires n.active
    ensures var back := Absorb(n, p, VoteResponse(t, granted), now);
      && Protocol(back) == Protocol(HandleVoteResponse(n, granted, now))
      && Sent(back.activityLog) == Sent(n.activityLog)
  {
    var got := Record(n, Received(p, VoteResponse(t, granted)), now);
    SentSnoc(n.activityLog, Activity(now, Received(p, VoteResponse(t, granted))));
    if granted {
      var counted := got.(votes := Some(VoteCount(n) + 1));
      if counted.votes.value > |n.peers| / 2 {
        SentSnoc(got.activityLog, Activity(now, BecameLeader(n.term)));
      }
    }
  }

  /** Sending one vote request to another peer: the peer grants it exactly when
      it is active and the term is newer, and the candidate counts the grant when
      it makes it back; the transmission is recorded last. */
  lemma VoteExchange(c: Nodes, s: NodeId, p: NodeId, t: nat, now: Stamp)
    requires s in c && p in c && s != p && c[s].active && p in c[s].peers
    ensures var r := Transmit(c, s, p, VoteRequest(t), now);
      && r.Keys == c.Keys && Untouched(c, r, s, p)
      && Protocol(r[p]) == Protocol(Grant(c[p], s, t))
      && Protocol(r[s]) == Protocol(HandleVoteResponse(c[s], GrantsBack(c[p], s, t), now))
      && r[s].term == c[s].term && r[s].active == c[s].active && r[s].peers == c[s].peers
      && r[s].votes == HandleVoteResponse(c[s], GrantsBack(c[p], s, t), now).votes
      && r[s].role == HandleVoteResponse(c[s], GrantsBack(c[p], s, t), now).role
      && Sent(r[s].activityLog) == Sent(c[s].activityLog) + [Transmitted(p, VoteRequest(t))]
  {
    var m := VoteRequest(t);
    var q := c[p];
    var r := Transmit(c, s, p, m, now);
    if q.active {
      var got := c[p := Record(q, Received(s, m), now)];
      VoteRequestOutcome(got, p, s, t, now);
      var delivered := HandleVoteRequest(got, p, s, t, now);
      assert Receive(c, p, s, m, now) == delivered;
      assert r == delivered[s := Record(delivered[s], Transmitted(p, m), now)];
      if s in q.peers {
        AbsorbVoteReply(c[s], p, Grant(q, s, t).term, t > q.term, now);
      }
      SentSnoc(delivered[s].activityLog, Activity(now, Transmitted(p, m)));
    } else {
      SentSnoc(c[s].activityLog, Activity(now, Transmitted(p, m)));
    }
  }

  // The loops over the peers.

  /** What the loop lemmas assume: the sender exists and is active, and the
      targets are distinct existing peers of it, other than itself. */
  predicate Canvass(c: Nodes, s: NodeId, ts: seq<NodeId>) {
    s in c && c[s].active && s !in ts && NoDup(ts) && forall p :: p in ts ==> p in c && p in c[s].peers
  }

  /** Every element after the first is an element, and, without duplicates,
      none of them is the first. */
  lemma TailFacts(ts: seq<NodeId>)
    requires ts != [] && NoDup(ts)
    ensures ts[0] !in ts[1..] && NoDup(ts[1..])
    ensures forall p :: p in ts[1..] ==> p in ts && p != ts[0]
    ensures forall p :: p in ts ==> p == ts[0] || p in ts[1..]
  {
    assert ts == [ts[0]] + ts[1..];
  }

  /** The first target is an existing peer other than the sender. */
  lemma CanvassHead(c: Nodes, s: NodeId, ts: seq<NodeId>)
    requires Canvass(c, s, ts) && ts != []
    ensures ts[0] in c && ts[0] != s && ts[0] in c[s].peers
  {
    var p := ts[0];
    assert p in ts;
    assert s !in ts;
  }

  /** Once the first target has been served, and the sender is still active
      with the same peers, the remaining targets can be canvassed. */
  lemma CanvassTail(c: Nodes, c1: Nodes, s: NodeId, ts: seq<NodeId>)
    requires Canvass(c, s, ts) && ts != []
    requires c1.Keys == c.Keys && c1[s].active && c1[s].peers == c[s].peers
    ensures Canvass(c1, s, ts[1..])
    ensures forall p :: p in ts ==> p == ts[0] || p in ts[1..]
    ensures forall p :: p in ts[1..] ==> p != ts[0]
  {
    TailFacts(ts);
  }

  /** The replication loop changes every node only as Steps allows. */
  lemma {:induction false} ReplicationProgresses(c: Nodes, s: NodeId, ts: seq<NodeId>, now: Stamp)
    requires s in c && c[s].currentState.Some?
    requires forall p :: p in ts ==> p in c
    ensures Progresses(c, ReplicateToPeers(c, s, ts, now))
  {
    if ts != [] {
      var n := c[s];
      var m := AppendEntries(n.term, [LogEntry(n.term, n.currentState.value)]);
      assert ts[0] in ts;
      TransmitSteps(c, s, ts[0], m, now);
      var c1 := Transmit(c, s, ts[0], m, now);
      ReplicationProgresses(c1, s, ts[1..], now);
      ProgressesTransitive(c, c1, ReplicateToPeers(c1, s, ts[1..], now));
    }
  }

  /** The vote-request loop changes every node only as Steps allows. */
  lemma {:induction false} VotingProgresses(c: Nodes, s: NodeId, ts: seq<NodeId>, now: Stamp)
    requires s in c
    requires forall p :: p in ts ==> p in c
    ensures Progresses(c, RequestVotes(c, s, ts, now))
  {
    if ts != [] {
      assert ts[0] in ts;
      TransmitSteps(c, s, ts[0], VoteRequest(c[s].term), now);
      var c1 := Transmit(c, s, ts[0], VoteRequest(c[s].term), now);
      VotingProgresses(c1, s, ts[1..], now);
      ProgressesTransitive(c, c1, RequestVotes(c1, s, ts[1..], now));
    }
  }

  /** A failed node's loop sends nothing and changes nothing. */
  lemma {:induction false} ReplicateFromInactive(c: Nodes, s: NodeId, ts: seq<NodeId>, now: Stamp)
    requires s in c && !c[s].active && c[s].currentState.Some?
    requires forall p :: p in ts ==> p in c
    ensures ReplicateToPeers(c, s, ts, now) == c
  {
    if ts != [] {
      ReplicateFromInactive(c, s, ts[1..], now);
    }
  }

  /** One append-entries request as the sender sees it: its protocol state and
      liveness stay, and its record of transmissions grows by that request. */
  lemma ReplicationStep(c: Nodes, s: NodeId, p: NodeId, now: Stamp)
    requires s in c && p in c && s != p && c[s].active && p in c[s].peers && c[s].currentState.Some?
    ensures var n := c[s];
      var m := AppendEntries(n.term, [LogEntry(n.term, n.currentState.value)]);
      var r := Transmit(c, s, p, m, now);
      && r.Keys == c.Keys && Untouched(c, r, s, p)
      && Protocol(r[s]) == Protocol(n) && r[s].active && r[s].peers == n.peers
      && r[s].term == n.term && r[s].currentState == n.currentState
      && Sent(r[s].activityLog) == Sent(n.activityLog) + [Transmitted(p, m)]
      && Protocol(r[p]) == Protocol(Accept(c[p], m.term, m.entries))
  {
    var n := c[s];
    var q := c[p];
    var m := AppendEntries(n.term, [LogEntry(n.term, n.currentState.value)]);
    AppendEntriesExchange(c, s, p, m.term, m.entries, now);
    var r := Transmit(c, s, p, m, now);
    assert r[s].term == n.term && r[s].currentState == n.currentState by {
      assert Protocol(r[s]) == Protocol(n);
    }
    var reply := AppendEntriesResponse(Accept(q, m.term, m.entries).term, q.active && m.term >= q.term);
    var back := if q.active && s in q.peers then [Activity(now, Received(p, reply))] else [];
    SentSkips(n.activityLog, back);
    SentSnoc(n.activityLog + back, Activity(now, Transmitted(p, m)));
  }

  /** Announcing to the first target and then to the rest is announcing to all. */
  lemma AnnouncedCons(before: seq<Event>, ts: seq<NodeId>, m: Message)
    requires ts != []
    ensures before + [Transmitted(ts[0], m)] + Announced(ts[1..], m) == before + Announced(ts, m)
  {
    assert Announced(ts, m) == [Transmitted(ts[0], m)] + Announced(ts[1..], m);
  }

  /** One turn of the replication loop: the first target is served, and the
      loop carries on from there over the remaining targets with the same
      request, since the sender keeps its term and value. */
  lemma ReplicationAdvance(c: Nodes, s: NodeId, ts: seq<NodeId>, now: Stamp) returns (c1: Nodes)
    requires Canvass(c, s, ts) && ts != [] && c[s].currentState.Some?
    ensures ts[0] in c && c1.Keys == c.Keys && Canvass(c1, s, ts[1..])
    ensures c1[s].currentState == c[s].currentState && c1[s].term == c[s].term
    ensures var n := c[s];
      var m := AppendEntries(n.term, [LogEntry(n.term, n.currentState.value)]);
      && ReplicateToPeers(c, s, ts, now) == ReplicateToPeers(c1, s, ts[1..], now)
      && Protocol(c1[s]) == Protocol(n)
      && Sent(c1[s].activityLog) == Sent(n.activityLog) + [Transmitted(ts[0], m)]
      && Protocol(c1[ts[0]]) == Protocol(Accept(c[ts[0]], m.term, m.entries))
      && (forall k :: k in c && k != s && k != ts[0] ==> c1[k] == c[k])
      && (forall p :: p in ts ==> p == ts[0] || p in ts[1..])
      && (forall p :: p in ts[1..] ==> p != ts[0])
  {
    var n := c[s];
    var m := AppendEntries(n.term, [LogEntry(n.term, n.currentState.value)]);
    c1 := Transmit(c, s, ts[0], m, now);
    CanvassHead(c, s, ts);
    ReplicationStep(c, s, ts[0], now);
    CanvassTail(c, c1, s, ts);
  }

  /** The replication loop leaves the sender's own protocol state unchanged. */
  lemma {:induction false} ReplicationKeepsSender(c: Nodes, s: NodeId, ts: seq<NodeId>, now: Stamp)
    requires Canvass(c, s, ts) && c[s].currentState.Some?
    ensures Protocol(ReplicateToPeers(c, s, ts, now)[s]) == Protocol(c[s])
  {
    if ts != [] {
      var n := c[s];
      var c1 := ReplicationAdvance(c, s, ts, now);
      ReplicationKeepsSender(c1, s, ts[1..], now);
    }
  }

  /** The replication loop sends every target, in order, one append-entries
      request with the term and value the sender holds. */
  lemma {:induction false} ReplicationAnnounces(c: Nodes, s: NodeId, ts: seq<NodeId>, now: Stamp)
    requires Canvass(c, s, ts) && c[s].currentState.Some?
    ensures var n := c[s];
      Sent(ReplicateToPeers(c, s, ts, now)[s].activityLog) ==
        Sent(n.activityLog) + Announced(ts, AppendEntries(n.term, [LogEntry(n.term, n.currentState.value)]))
  {
    if ts != [] {
      var n := c[s];
      var m := AppendEntries(n.term, [LogEntry(n.term, n.currentState.value)]);
      var c1 := ReplicationAdvance(c, s, ts, now);
      ReplicationAnnounces(c1, s, ts[1..], now);
      AnnouncedCons(Sent(n.activityLog), ts, m);
    }
  }

  /** The replication loop, as the targets see it: each accepts or refuses the
      request as Accept says; nodes that are not targets are untouched. */
  lemma {:induction false} ReplicationReachesPeers(c: Nodes, s: NodeId, ts: seq<NodeId>, now: Stamp)
    requires Canvass(c, s, ts) && c[s].currentState.Some?
    ensures var r := ReplicateToPeers(c, s, ts, now);
      var n := c[s];
      && (forall p :: p in ts ==> Protocol(r[p]) == Protocol(Accept(c[p], n.term, [LogEntry(n.term, n.currentState.value)])))
      && (forall k :: k in c && k != s && k !in ts ==> r[k] == c[k])
  {
    if ts != [] {
      var n := c[s];
      var m := AppendEntries(n.term, [LogEntry(n.term, n.currentState.value)]);
      var c1 := ReplicationAdvance(c, s, ts, now);
      ReplicationReachesPeers(c1, s, ts[1..], now);
      var r := ReplicateToPeers(c1, s, ts[1..], now);
      forall p | p in ts ensures Protocol(r[p]) == Protocol(Accept(c[p], m.term, m.entries)) {
        if p != ts[0] {
          assert c1[p] == c[p];
        }
      }
    }
  }

  /** How many targets grant the candidate a vote that makes it back. */
  function GrantCount(c: Nodes, s: NodeId, ts: seq<NodeId>, t: nat): (g: nat)
    requires forall p :: p in ts ==> p in c
    ensures g <= |ts|
  {
    if ts == [] then 0
    else
      var p := ts[0];
      assert p in ts;
      (if GrantsBack(c[p], s, t) then 1 else 0) + GrantCount(c, s, ts[1..], t)
  }

  /** The count depends only on the targets' own states. */
  lemma {:induction false} GrantCountFrame(c: Nodes, d: Nodes, s: NodeId, ts: seq<NodeId>, t: nat)
    requires forall p :: p in ts ==> p in c && p in d && c[p] == d[p]
    ensures GrantCount(c, s, ts, t) == GrantCount(d, s, ts, t)
  {
    if ts != [] {
      assert ts[0] in ts;
      forall p | p in ts[1..] ensures p in ts {
        var j :| 0 <= j < |ts[1..]| && ts[1..][j] == p;
        assert ts[j + 1] == p;
      }
      GrantCountFrame(c, d, s, ts[1..], t);
    }
  }

  /** Counting one reply and then the rest elects exactly when counting them all
      at once does. */
  lemma TallyCombine(was: bool, v: nat, b: nat, g: nat, half: int, mid: bool, after: bool)
    requires b <= 1
    requires mid == (was || (b == 1 && v + 1 > half))
    requires after == (mid || (g >= 1 && v + b + g > half))
    ensures after == (was || (b + g >= 1 && v + b + g > half))
  {
  }

  /** One vote request as the candidate sees it: the grant, if it makes it
      back, is counted; term, vote, log, liveness and peers stay; the request
      is added to its record of transmissions. */
  lemma VoteStep(c: Nodes, s: NodeId, p: NodeId, now: Stamp)
    requires s in c && p in c && s != p && c[s].active && p in c[s].peers
    ensures var n := c[s];
      var r := Transmit(c, s, p, VoteRequest(n.term), now);
      var b := if GrantsBack(c[p], s, n.term) then 1 else 0;
      && r.Keys == c.Keys && Untouched(c, r, s, p)
      && r[s].active && r[s].peers == n.peers
      && r[s].term == n.term && r[s].votedFor == n.votedFor && r[s].logEntries == n.logEntries
      && (n.votes.Some? ==> r[s].votes.Some? && VoteCount(r[s]) == VoteCount(n) + b)
      && (r[s].role == Leader <==> n.role == Leader || (b == 1 && VoteCount(n) + 1 > |n.peers| / 2))
      && (r[s].role != Leader ==> r[s].role == n.role)
      && Sent(r[s].activityLog) == Sent(n.activityLog) + [Transmitted(p, VoteRequest(n.term))]
      && Protocol(r[p]) == Protocol(Grant(c[p], s, n.term))
  {
    VoteExchange(c, s, p, c[s].term, now);
  }

  /** One turn of the vote-request loop: the first target is asked, and the
      loop carries on from there over the remaining targets with the same term. */
  lemma VoteAdvance(c: Nodes, s: NodeId, ts: seq<NodeId>, now: Stamp) returns (c1: Nodes)
    requires Canvass(c, s, ts) && ts != []
    ensures ts[0] in c && c1.Keys == c.Keys && Canvass(c1, s, ts[1..])
    ensures var n := c[s];
      var b := if GrantsBack(c[ts[0]], s, n.term) then 1 else 0;
      && RequestVotes(c, s, ts, now) == RequestVotes(c1, s, ts[1..], now)
      && c1[s].peers == n.peers && c1[s].term == n.term && c1[s].votedFor == n.votedFor
      && c1[s].logEntries == n.logEntries
      && (n.votes.Some? ==> c1[s].votes.Some? && VoteCount(c1[s]) == VoteCount(n) + b)
      && (c1[s].role == Leader <==> n.role == Leader || (b == 1 && VoteCount(n) + 1 > |n.peers| / 2))
      && (c1[s].role != Leader ==> c1[s].role == n.role)
      && Sent(c1[s].activityLog) == Sent(n.activityLog) + [Transmitted(ts[0], VoteRequest(n.term))]
      && Protocol(c1[ts[0]]) == Protocol(Grant(c[ts[0]], s, n.term))
      && (forall k :: k in c && k != s && k != ts[0] ==> c1[k] == c[k])
      && (forall p :: p in ts ==> p == ts[0] || p in ts[1..])
      && (forall p :: p in ts[1..] ==> p != ts[0] && p in c && c1[p] == c[p])
  {
    c1 := Transmit(c, s, ts[0], VoteRequest(c[s].term), now);
    CanvassHead(c, s, ts);
    VoteStep(c, s, ts[0], now);
    CanvassTail(c, c1, s, ts);
  }

  /** The vote-request loop, as the candidate's tally sees it: one more vote per
      grant that made it back. */
  lemma {:induction false} VotesTallied(c: Nodes, s: NodeId, ts: seq<NodeId>, now: Stamp)
    requires Canvass(c, s, ts) && c[s].votes.Some?
    ensures var r := RequestVotes(c, s, ts, now);
      r[s].votes.Some? && VoteCount(r[s]) == VoteCount(c[s]) + GrantCount(c, s, ts, c[s].term)
  {
    if ts != [] {
      var n := c[s];
      var c1 := VoteAdvance(c, s, ts, now);
      VotesTallied(c1, s, ts[1..], now);
      GrantCountFrame(c1, c, s, ts[1..], n.term);
    }
  }

  /** The vote-request loop, as the candidate's tally and role see it: one
      more vote per grant that made it back, and leadership afterwards exactly
      when it held it before or some grant lifted the tally above half its
      peers; otherwise the role stays. */
  lemma {:induction false} VotesCounted(c: Nodes, s: NodeId, ts: seq<NodeId>, now: Stamp)
    requires Canvass(c, s, ts) && c[s].votes.Some?
    ensures var r := RequestVotes(c, s, ts, now);
      var n := c[s];
      var g := GrantCount(c, s, ts, n.term);
      && r[s].votes.Some? && VoteCount(r[s]) == VoteCount(n) + g
      && (r[s].role == Leader <==> n.role == Leader || (g >= 1 && n.votes.value + g > |n.peers| / 2))
      && (r[s].role != Leader ==> r[s].role == n.role)
  {
    VotesTallied(c, s, ts, now);
    if ts != [] {
      var n := c[s];
      var c1 := VoteAdvance(c, s, ts, now);
      var b := if GrantsBack(c[ts[0]], s, n.term) then 1 else 0;
      VotesCounted(c1, s, ts[1..], now);
      GrantCountFrame(c1, c, s, ts[1..], n.term);
      var r := RequestVotes(c1, s, ts[1..], now);
      TallyCombine(n.role == Leader, n.votes.value, b, GrantCount(c, s, ts[1..], n.term), |n.peers| / 2,
        c1[s].role == Leader, r[s].role == Leader);
    }
  }

  /** The vote-request loop leaves the candidate's term, vote and log alone. */
  lemma {:induction false} VotesKeepCandidate(c: Nodes, s: NodeId, ts: seq<NodeId>, now: Stamp)
    requires Canvass(c, s, ts)
    ensures var r := RequestVotes(c, s, ts, now);
      r[s].term == c[s].term && r[s].votedFor == c[s].votedFor && r[s].logEntries == c[s].logEntries
  {
    if ts != [] {
      var c1 := VoteAdvance(c, s, ts, now);
      VotesKeepCandidate(c1, s, ts[1..], now);
    }
  }

  /** The vote-request loop asks every target once, in order, with the term the
      candidate holds. */
  lemma {:induction false} VotesRequested(c: Nodes, s: NodeId, ts: seq<NodeId>, now: Stamp)
    requires Canvass(c, s, ts)
    ensures Sent(RequestVotes(c, s, ts, now)[s].activityLog) ==
      Sent(c[s].activityLog) + Announced(ts, VoteRequest(c[s].term))
  {
    if ts != [] {
      var n := c[s];
      var m := VoteRequest(n.term);
      var c1 := VoteAdvance(c, s, ts, now);
      VotesRequested(c1, s, ts[1..], now);
      AnnouncedCons(Sent(n.activityLog), ts, m);
    }
  }

  /** The vote-request loop, as the targets see it: each grants or refuses as
      Grant says (adopting the term, remembering the candidate, keeping its
      role); nodes that are not targets are untouched. */
  lemma {:induction false} VotesReachPeers(c: Nodes, s: NodeId, ts: seq<NodeId>, now: Stamp)
    requires Canvass(c, s, ts)
    ensures var r := RequestVotes(c, s, ts, now);
      && (forall p :: p in ts ==> Protocol(r[p]) == Protocol(Grant(c[p], s, c[s].term)))
      && (forall k :: k in c && k != s && k !in ts ==> r[k] == c[k])
  {
    if ts != [] {
      var n := c[s];
      var c1 := VoteAdvance(c, s, ts, now);
      VotesReachPeers(c1, s, ts[1..], now);
    }
  }

  // The operations as a whole.

  /** The cluster once the node has taken the proposal, and the facts the
      replication loop needs about it. */
  lemma ProposalFrame(c: Nodes, self: NodeId, v: Value, now: Stamp)
    requires self in c && Linked(c, self) && self !in c[self].peers
    ensures var n := c[self];
      var c0 := c[self := Proposal(n, v, now)];
      && SuggestState(c, self, v, now) == (if n.role == Leader then ReplicateToPeers(c0, self, n.peers, now) else c0)
      && c0[self] == Proposal(n, v, now)
      && (n.active ==> Canvass(c0, self, n.peers))
      && (forall p :: p in n.peers ==> p in c && p in c0 && c0[p] == c[p])
  {
  }

  /** `suggest_state` on a node that is not its own peer: the value becomes the
      current state and is appended with the current term to the local log,
      and the proposal is the next activity; nothing else of the node changes.
      A node that is not an active leader records nothing more. */
  lemma ProposalTaken(c: Nodes, self: NodeId, v: Value, now: Stamp)
    requires self in c && Linked(c, self) && self !in c[self].peers
    ensures var r := SuggestState(c, self, v, now);
      var n := c[self];
      && Protocol(r[self]) == Protocol(n.(currentState := Some(v), logEntries := n.logEntries + [LogEntry(n.term, v)]))
      && n.activityLog + [Activity(now, SuggestedState(v))] <= r[self].activityLog
      && (n.role != Leader || !n.active ==> r[self].activityLog == n.activityLog + [Activity(now, SuggestedState(v))])
  {
    var n := c[self];
    var c0 := c[self := Proposal(n, v, now)];
    ProposalFrame(c, self, v, now);
    if n.role == Leader {
      ReplicationProgresses(c0, self, n.peers, now);
      if n.active {
        ReplicationKeepsSender(c0, self, n.peers, now);
      } else {
        ReplicateFromInactive(c0, self, n.peers, now);
      }
    }
  }

  /** `suggest_state` on a node that is not its own peer: an active leader
      sends exactly one append-entries request, carrying its term and one entry
      with the value, to each peer in peer order; any other node sends nothing. */
  lemma ProposalAnnounced(c: Nodes, self: NodeId, v: Value, now: Stamp)
    requires self in c && Linked(c, self) && self !in c[self].peers
    ensures var r := SuggestState(c, self, v, now);
      var n := c[self];
      var m := AppendEntries(n.term, [LogEntry(n.term, v)]);
      Sent(r[self].activityLog) == Sent(n.activityLog) + (if n.role == Leader && n.active then Announced(n.peers, m) else [])
  {
    var n := c[self];
    var c0 := c[self := Proposal(n, v, now)];
    ProposalFrame(c, self, v, now);
    SentSnoc(n.activityLog, Activity(now, SuggestedState(v)));
    if n.role == Leader {
      if n.active {
        ReplicationAnnounces(c0, self, n.peers, now);
      } else {
        ReplicateFromInactive(c0, self, n.peers, now);
      }
    }
  }

  /** `suggest_state` on a node that is not its own peer, as the others see it:
      under an active leader each peer accepts or refuses the entry as Accept
      says; no other node changes, and under anyone else no node but the
      proposer changes. */
  lemma ProposalReachesPeers(c: Nodes, self: NodeId, v: Value, now: Stamp)
    requires self in c && Linked(c, self) && self !in c[self].peers
    ensures var r := SuggestState(c, self, v, now);
      var n := c[self];
      var replicates := n.role == Leader && n.active;
      && (replicates ==> forall p :: p in n.peers ==> Protocol(r[p]) == Protocol(Accept(c[p], n.term, [LogEntry(n.term, v)])))
      && (forall k :: k in c && k != self && (!replicates || k !in n.peers) ==> r[k] == c[k])
  {
    var n := c[self];
    var c0 := c[self := Proposal(n, v, now)];
    ProposalFrame(c, self, v, now);
    if n.role == Leader {
      if n.active {
        ReplicationReachesPeers(c0, self, n.peers, now);
      } else {
        ReplicateFromInactive(c0, self, n.peers, now);
      }
    }
  }

  /** `suggest_state` changes no node's identity, peers or liveness, and so
      keeps the cluster well formed. */
  lemma ProposalKeepsMembership(c: Nodes, self: NodeId, v: Value, now: Stamp)
    requires self in c && Linked(c, self)
    ensures var r := SuggestState(c, self, v, now);
      && r.Keys == c.Keys
      && (forall k :: k in c ==> r[k].id == c[k].id && r[k].peers == c[k].peers && r[k].active == c[k].active)
      && (Valid(c) ==> Valid(r))
  {
    var n := c[self];
    var c0 := c[self := Proposal(n, v, now)];
    var r := SuggestState(c, self, v, now);
    if n.role == Leader {
      ReplicationProgresses(c0, self, n.peers, now);
    }
    if Valid(c) {
      forall k | k in r ensures Linked(r, k) {
        assert Linked(c, k);
      }
    }
  }

  /** `start_election` changes no node's identity, peers or liveness, and so
      keeps the cluster well formed. */
  lemma ElectionKeepsMembership(c: Nodes, self: NodeId, now: Stamp)
    requires self in c && Linked(c, self)
    ensures var r := StartElection(c, self, now);
      && r.Keys == c.Keys
      && (forall k :: k in c ==> r[k].id == c[k].id && r[k].peers == c[k].peers && r[k].active == c[k].active)
      && (Valid(c) ==> Valid(r))
  {
    var n := c[self];
    var c0 := c[self := Candidacy(n, now)];
    var r := StartElection(c, self, now);
    if n.active {
      VotingProgresses(c0, self, n.peers, now);
    }
    if Valid(c) {
      forall k | k in r ensures Linked(r, k) {
        assert Linked(c, k);
      }
    }
  }

  /** The cluster once the node has declared its candidacy, and the facts the
      vote-request loop needs about it. */
  lemma CandidacyFrame(c: Nodes, self: NodeId, now: Stamp)
    requires self in c && Linked(c, self) && c[self].active && self !in c[self].peers
    ensures var n := c[self];
      var c0 := c[self := Candidacy(n, now)];
      && StartElection(c, self, now) == RequestVotes(c0, self, n.peers, now)
      && c0[self] == Candidacy(n, now) && Canvass(c0, self, n.peers)
      && forall p :: p in n.peers ==> p in c && p in c0 && c0[p] == c[p]
  {
  }

  /** `start_election` on an active node that is not its own peer ends with the
      node in the next term, having voted for itself, its log unchanged. */
  lemma ElectionKeepsCandidacy(c: Nodes, self: NodeId, now: Stamp)
    requires self in c && Linked(c, self) && c[self].active && self !in c[self].peers
    ensures var r := StartElection(c, self, now);
      r[self].term == c[self].term + 1 && r[self].votedFor == Some(self) && r[self].logEntries == c[self].logEntries
  {
    var c0 := c[self := Candidacy(c[self], now)];
    CandidacyFrame(c, self, now);
    VotesKeepCandidate(c0, self, c[self].peers, now);
  }

  /** `start_election` on an active node that is not its own peer ends with one
      vote plus one per grant that made it back. */
  lemma ElectionTally(c: Nodes, self: NodeId, now: Stamp)
    requires self in c && Linked(c, self) && c[self].active && self !in c[self].peers
    ensures var r := StartElection(c, self, now);
      r[self].votes.Some? && VoteCount(r[self]) == 1 + GrantCount(c, self, c[self].peers, c[self].term + 1)
  {
    var n := c[self];
    var c0 := c[self := Candidacy(n, now)];
    CandidacyFrame(c, self, now);
    GrantCountFrame(c0, c, self, n.peers, n.term + 1);
    VotesCounted(c0, self, n.peers, now);
  }

  /** `start_election` on an active node that is not its own peer makes it
      leader exactly when at least one grant came back and the tally exceeds
      half its peers; otherwise it stays candidate. A node without peers
      therefore stays candidate. */
  lemma ElectionOutcome(c: Nodes, self: NodeId, now: Stamp)
    requires self in c && Linked(c, self) && c[self].active && self !in c[self].peers
    ensures var r := StartElection(c, self, now);
      var g := GrantCount(c, self, c[self].peers, c[self].term + 1);
      r[self].role == (if g >= 1 && 1 + g > |c[self].peers| / 2 then Leader else Candidate)
  {
    var n := c[self];
    var c0 := c[self := Candidacy(n, now)];
    CandidacyFrame(c, self, now);
    GrantCountFrame(c0, c, self, n.peers, n.term + 1);
    VotesCounted(c0, self, n.peers, now);
  }

  /** `start_election` on an active node that is not its own peer records the
      election first and then exactly one vote request for the new term to each
      peer, in peer order. */
  lemma ElectionAnnounced(c: Nodes, self: NodeId, now: Stamp)
    requires self in c && Linked(c, self) && c[self].active && self !in c[self].peers
    ensures var r := StartElection(c, self, now);
      var n := c[self];
      && n.activityLog + [Activity(now, StartedElection(n.term + 1))] <= r[self].activityLog
      && Sent(r[self].activityLog) == Sent(n.activityLog) + Announced(n.peers, VoteRequest(n.term + 1))
  {
    var n := c[self];
    var c0 := c[self := Candidacy(n, now)];
    CandidacyFrame(c, self, now);
    VotingProgresses(c0, self, n.peers, now);
    SentSnoc(n.activityLog, Activity(now, StartedElection(n.term + 1)));
    VotesRequested(c0, self, n.peers, now);
  }

  /** `start_election` on an active node that is not its own peer: each peer
      grants or refuses as Grant says, and no node outside the peers changes. */
  lemma ElectionReachesPeers(c: Nodes, self: NodeId, now: Stamp)
    requires self in c && Linked(c, self) && c[self].active && self !in c[self].peers
    ensures var r := StartElection(c, self, now);
      var n := c[self];
      && (forall p :: p in n.peers ==> Protocol(r[p]) == Protocol(Grant(c[p], self, n.term + 1)))
      && (forall k :: k in c && k != self && k !in n.peers ==> r[k] == c[k])
  {
    var n := c[self];
    var c0 := c[self := Candidacy(n, now)];
    CandidacyFrame(c, self, now);
    VotesReachPeers(c0, self, n.peers, now);
  }
}
