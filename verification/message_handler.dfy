/** Message transport and the protocol handlers (lib/message_handler.rb).
    Delivery is a synchronous nested call: transmitting a request runs the
    receiver's whole handling, including its reply back to the sender, before the
    sender records the transmission. A request provokes one reply and a reply
    provokes nothing, so every cascade is at most two hops deep. */
module MessageHandler {
  import opened NodeState

  /** How many hops a message can still provoke: requests one, replies none. */
  function Rank(m: Message): nat {
    match m
    case VoteRequest(_) => 1
    case AppendEntries(_, _) => 1
    case _ => 0
  }

  /** `transmit_message`: an inactive sender does nothing; a target that is not a
      peer costs one failure event on the sender; otherwise the target receives
      the message and only then does the sender record the transmission. */
  function Transmit(c: Nodes, from: NodeId, to: NodeId, m: Message, now: Stamp): (r: Nodes)
    requires from in c && to in c
    ensures r.Keys == c.Keys && Untouched(c, r, from, to)
    ensures r[from].currentState == c[from].currentState && r[to].currentState == c[to].currentState
    decreases Rank(m), 3
  {
    var sender := c[from];
    if !sender.active then c
    else if to !in sender.peers then c[from := Record(sender, TransmitFailed(to), now)]
    else
      var delivered := Receive(c, to, from, m, now);
      delivered[from := Record(delivered[from], Transmitted(to, m), now)]
  }

  /** `receive_message`: an inactive node drops the message without a trace;
      an active one records it and dispatches it. */
  function Receive(c: Nodes, self: NodeId, from: NodeId, m: Message, now: Stamp): (r: Nodes)
    requires self in c && from in c
    ensures r.Keys == c.Keys && Untouched(c, r, self, from)
    ensures r[self].currentState == c[self].currentState && r[from].currentState == c[from].currentState
    decreases Rank(m), 2
  {
    if !c[self].active then c
    else Handle(c[self := Record(c[self], Received(from, m), now)], self, from, m, now)
  }

  /** `handle_message`: dispatch on the message kind; append-entries responses and
      unknown kinds are ignored. */
  function Handle(c: Nodes, self: NodeId, from: NodeId, m: Message, now: Stamp): (r: Nodes)
    requires self in c && from in c
    ensures r.Keys == c.Keys && Untouched(c, r, self, from)
    ensures r[self].currentState == c[self].currentState && r[from].currentState == c[from].currentState
    ensures Rank(m) == 0 ==> r.Keys == c.Keys && Untouched(c, r, self, self)
    decreases Rank(m), 1
  {
    match m
    case VoteRequest(t) => HandleVoteRequest(c, self, from, t, now)
    case VoteResponse(_, granted) => c[self := HandleVoteResponse(c[self], granted, now)]
    case AppendEntries(t, entries) => HandleAppendEntries(c, self, from, t, entries, now)
    case _ => c
  }

  /** `handle_vote_request`: grant exactly when the requested term is newer,
      adopting that term and remembering the candidate; reply either way with the
      term held after handling. The role is never touched. */
  function HandleVoteRequest(c: Nodes, self: NodeId, from: NodeId, t: nat, now: Stamp): (r: Nodes)
    requires self in c && from in c
    ensures r.Keys == c.Keys && Untouched(c, r, self, from)
    ensures r[self].currentState == c[self].currentState && r[from].currentState == c[from].currentState
    decreases 1, 0
  {
    var n := c[self];
    if t > n.term then
      Transmit(c[self := n.(term := t, votedFor := Some(from))], self, from, VoteResponse(t, true), now)
    else
      Transmit(c, self, from, VoteResponse(n.term, false), now)
  }

  /** `handle_vote_response`: a refusal changes nothing; a grant adds one to the
      tally (an unset tally counting as zero) and makes the node leader as soon as
      the tally exceeds half its peers. Neither term nor role is checked first. */
  function HandleVoteResponse(n: Node, granted: bool, now: Stamp): (r: Node)
    ensures Steps(n, r)
    ensures !granted ==> r == n
    ensures granted ==> r.votes == Some(VoteCount(n) + 1)
    ensures granted ==> (r.role == Leader <==> n.role == Leader || VoteCount(n) + 1 > |n.peers| / 2)
    ensures r.role != Leader ==> r.role == n.role
    ensures r.term == n.term && r.votedFor == n.votedFor && r.logEntries == n.logEntries
  {
    if !granted then n
    else
      var counted := n.(votes := Some(VoteCount(n) + 1));
      if counted.votes.value > |n.peers| / 2 then BecomeLeader(counted, now) else counted
  }

  /** `handle_append_entries`: an older term is refused with the local term and no
      local change; otherwise the node adopts the term, becomes follower, appends
      the entries as they are (no log matching) and reports success. */
  function HandleAppendEntries(c: Nodes, self: NodeId, from: NodeId, t: nat, entries: seq<LogEntry>, now: Stamp): (r: Nodes)
    requires self in c && from in c
    ensures r.Keys == c.Keys && Untouched(c, r, self, from)
    ensures r[self].currentState == c[self].currentState && r[from].currentState == c[from].currentState
    decreases 1, 0
  {
    var n := c[self];
    if !(t >= n.term) then
      Transmit(c, self, from, AppendEntriesResponse(n.term, false), now)
    else
      var accepted := n.(term := t, role := Follower, logEntries := n.logEntries + entries);
      Transmit(c[self := accepted], self, from, AppendEntriesResponse(t, true), now)
  }

  // Properties of transport and handling.

  lemma StepsTransitive(a: Node, b: Node, d: Node)
    requires Steps(a, b) && Steps(b, d)
    ensures Steps(a, d)
  {
  }

  lemma ProgressesTransitive(c: Nodes, d: Nodes, e: Nodes)
    requires Progresses(c, d) && Progresses(d, e)
    ensures Progresses(c, e)
  {
    forall k | k in c ensures Steps(c[k], e[k]) {
      StepsTransitive(c[k], d[k], e[k]);
    }
  }

  lemma ProgressesUpdate(c: Nodes, k: NodeId, n: Node)
    requires k in c && Steps(c[k], n)
    ensures Progresses(c, c[k := n])
  {
  }

  /** Transmitting any message changes every node of the cluster only as Steps
      allows: no identity, peer list, liveness or proposed value changes, terms,
      logs, activity logs and tallies never shrink, and nobody becomes leader
      without a majority. */
  lemma {:induction false} TransmitSteps(c: Nodes, from: NodeId, to: NodeId, m: Message, now: Stamp)
    requires from in c && to in c
    ensures Progresses(c, Transmit(c, from, to, m, now))
    decreases Rank(m), 3
  {
    var sender := c[from];
    if !sender.active {
    } else if to !in sender.peers {
      ProgressesUpdate(c, from, Record(sender, TransmitFailed(to), now));
    } else {
      ReceiveSteps(c, to, from, m, now);
      var delivered := Receive(c, to, from, m, now);
      ProgressesUpdate(delivered, from, Record(delivered[from], Transmitted(to, m), now));
      ProgressesTransitive(c, delivered, delivered[from := Record(delivered[from], Transmitted(to, m), now)]);
    }
  }

  lemma {:induction false} ReceiveSteps(c: Nodes, self: NodeId, from: NodeId, m: Message, now: Stamp)
    requires self in c && from in c
    ensures Progresses(c, Receive(c, self, from, m, now))
    decreases Rank(m), 2
  {
    if c[self].active {
      var got := c[self := Record(c[self], Received(from, m), now)];
      ProgressesUpdate(c, self, got[self]);
      HandleSteps(got, self, from, m, now);
      ProgressesTransitive(c, got, Handle(got, self, from, m, now));
    }
  }

  lemma {:induction false} HandleSteps(c: Nodes, self: NodeId, from: NodeId, m: Message, now: Stamp)
    requires self in c && from in c
    ensures Progresses(c, Handle(c, self, from, m, now))
    decreases Rank(m), 1
  {
    match m
    case VoteRequest(t) => HandleVoteRequestSteps(c, self, from, t, now);
    case VoteResponse(_, granted) => ProgressesUpdate(c, self, HandleVoteResponse(c[self], granted, now));
    case AppendEntries(t, entries) => HandleAppendEntriesSteps(c, self, from, t, entries, now);
    case _ =>
  }

  lemma {:induction false} HandleVoteRequestSteps(c: Nodes, self: NodeId, from: NodeId, t: nat, now: Stamp)
    requires self in c && from in c
    ensures Progresses(c, HandleVoteRequest(c, self, from, t, now))
    decreases 1, 0
  {
    var n := c[self];
    if t > n.term {
      var granted := c[self := n.(term := t, votedFor := Some(from))];
      ProgressesUpdate(c, self, granted[self]);
      TransmitSteps(granted, self, from, VoteResponse(t, true), now);
      ProgressesTransitive(c, granted, Transmit(granted, self, from, VoteResponse(t, true), now));
    } else {
      TransmitSteps(c, self, from, VoteResponse(n.term, false), now);
    }
  }

  lemma {:induction false} HandleAppendEntriesSteps(c: Nodes, self: NodeId, from: NodeId, t: nat, entries: seq<LogEntry>, now: Stamp)
    requires self in c && from in c
    ensures Progresses(c, HandleAppendEntries(c, self, from, t, entries, now))
    decreases 1, 0
  {
    var n := c[self];
    if t >= n.term {
      var accepted := c[self := n.(term := t, role := Follower, logEntries := n.logEntries + entries)];
      ProgressesUpdate(c, self, accepted[self]);
      TransmitSteps(accepted, self, from, AppendEntriesResponse(t, true), now);
      ProgressesTransitive(c, accepted, Transmit(accepted, self, from, AppendEntriesResponse(t, true), now));
    } else {
      TransmitSteps(c, self, from, AppendEntriesResponse(n.term, false), now);
    }
  }

  /** How a node takes in a reply: dropped when inactive, otherwise recorded and
      handled (only a vote response changes anything). */
  function Absorb(n: Node, from: NodeId, m: Message, now: Stamp): (r: Node)
    requires Rank(m) == 0
  {
    if !n.active then n
    else
      var got := Record(n, Received(from, m), now);
      match m
      case VoteResponse(_, granted) => HandleVoteResponse(got, granted, now)
      case _ => got
  }

  /** The effect of transmitting a reply to another node: only the two nodes
      involved change, the receiver absorbs the reply before the sender records
      the transmission. */
  lemma TransmitReply(c: Nodes, from: NodeId, to: NodeId, m: Message, now: Stamp)
    requires from in c && to in c && from != to && Rank(m) == 0
    ensures Transmit(c, from, to, m, now) ==
      if !c[from].active then c
      else if to !in c[from].peers then c[from := Record(c[from], TransmitFailed(to), now)]
      else c[to := Absorb(c[to], from, m, now)][from := Record(c[from], Transmitted(to, m), now)]
  {
    if c[from].active && to in c[from].peers && c[to].active {
      var got := c[to := Record(c[to], Received(from, m), now)];
      assert Receive(c, to, from, m, now) == Handle(got, to, from, m, now);
      assert Handle(got, to, from, m, now) == got[to := Absorb(c[to], from, m, now)];
    }
  }

  /** A sender that has failed transmits nothing and records nothing. */
  lemma TransmitFromInactive(c: Nodes, from: NodeId, to: NodeId, m: Message, now: Stamp)
    requires from in c && to in c && !c[from].active
    ensures Transmit(c, from, to, m, now) == c
  {
  }

  /** Transmitting to a node that is not a peer records one failure event on the
      sender and leaves every other node, the target included, untouched. */
  lemma TransmitToNonPeer(c: Nodes, from: NodeId, to: NodeId, m: Message, now: Stamp)
    requires from in c && to in c && c[from].active && to !in c[from].peers
    ensures var r := Transmit(c, from, to, m, now);
      && r[from].activityLog == c[from].activityLog + [Activity(now, TransmitFailed(to))]
      && Protocol(r[from]) == Protocol(c[from])
      && forall k :: k in c && k != from ==> r[k] == c[k]
  {
  }

  /** A failed node drops whatever it is sent, without recording it. */
  lemma ReceiveWhenInactive(c: Nodes, self: NodeId, from: NodeId, m: Message, now: Stamp)
    requires self in c && from in c && !c[self].active
    ensures Receive(c, self, from, m, now) == c
  {
  }

  /** Append-entries responses and unknown kinds change nothing at all. */
  lemma HandleIgnores(c: Nodes, self: NodeId, from: NodeId, m: Message, now: Stamp)
    requires self in c && from in c
    requires m.AppendEntriesResponse? || m.Unrecognised?
    ensures Handle(c, self, from, m, now) == c
  {
  }

  /** The reply to a request travels back: the event the replier records last. */
  function ReplyEvent(n: Node, to: NodeId, reply: Message): Event {
    if to in n.peers then Transmitted(to, reply) else TransmitFailed(to)
  }

  /** How an active node takes a vote request: it grants exactly when the term
      is newer, adopting that term and remembering the candidate; its role, log
      and tally are never touched. A failed node takes nothing. */
  function Grant(q: Node, candidate: NodeId, t: nat): Node {
    if q.active && t > q.term then q.(term := t, votedFor := Some(candidate)) else q
  }

  /** How an active node takes an append-entries request: unless its term is
      newer it adopts the term, becomes follower and appends the entries as they
      are. A failed node takes nothing. */
  function Accept(q: Node, t: nat, entries: seq<LogEntry>): Node {
    if q.active && t >= q.term then q.(term := t, role := Follower, logEntries := q.logEntries + entries) else q
  }

  /** A vote request from another node is granted exactly when its term is newer
      than the local one, as Grant says; the reply carries the term held after
      handling, the replier records it last, and the candidate absorbs it. */
  lemma VoteRequestOutcome(c: Nodes, self: NodeId, from: NodeId, t: nat, now: Stamp)
    requires self in c && from in c && self != from && c[self].active
    ensures var r := HandleVoteRequest(c, self, from, t, now);
      var n := c[self];
      var reply := VoteResponse(r[self].term, t > n.term);
      && Protocol(r[self]) == Protocol(Grant(n, from, t))
      && r[self].activityLog == n.activityLog + [Activity(now, ReplyEvent(n, from, reply))]
      && r[from] == (if from in n.peers then Absorb(c[from], self, reply, now) else c[from])
  {
    var n := c[self];
    if t > n.term {
      TransmitReply(c[self := n.(term := t, votedFor := Some(from))], self, from, VoteResponse(t, true), now);
    } else {
      TransmitReply(c, self, from, VoteResponse(n.term, false), now);
    }
  }

  /** After granting a term to one candidate, a node refuses every other request
      for that same term and keeps its vote: at most one grant per term. */
  lemma OneGrantPerTerm(c: Nodes, self: NodeId, a: NodeId, b: NodeId, t: nat, now: Stamp, later: Stamp)
    requires self in c && a in c && b in c && self != a && self != b
    requires c[self].active && t > c[self].term
    ensures var r1 := HandleVoteRequest(c, self, a, t, now);
      var r2 := HandleVoteRequest(r1, self, b, t, later);
      && r1[self].votedFor == Some(a) && r1[self].term == t
      && r2[self].votedFor == Some(a) && r2[self].term == t
      && r2[self].activityLog == r1[self].activityLog + [Activity(later, ReplyEvent(c[self], b, VoteResponse(t, false)))]
  {
    VoteRequestOutcome(c, self, a, t, now);
    var r1 := HandleVoteRequest(c, self, a, t, now);
    VoteRequestOutcome(r1, self, b, t, later);
  }

  /** An append-entries request from another node is taken as Accept says: it
      is refused, changing nothing locally, exactly when the local term is newer.
      The reply carries the term held after handling and reaches the sender,
      which ignores it. */
  lemma AppendEntriesOutcome(c: Nodes, self: NodeId, from: NodeId, t: nat, entries: seq<LogEntry>, now: Stamp)
    requires self in c && from in c && self != from && c[self].active
    ensures var r := HandleAppendEntries(c, self, from, t, entries, now);
      var n := c[self];
      var reply := AppendEntriesResponse(r[self].term, t >= n.term);
      && Protocol(r[self]) == Protocol(Accept(n, t, entries))
      && r[self].activityLog == n.activityLog + [Activity(now, ReplyEvent(n, from, reply))]
      && r[from] == (if from in n.peers then Absorb(c[from], self, reply, now) else c[from])
      && Protocol(r[from]) == Protocol(c[from])
  {
    var n := c[self];
    if t >= n.term {
      TransmitReply(c[self := n.(term := t, role := Follower, logEntries := n.logEntries + entries)],
        self, from, AppendEntriesResponse(t, true), now);
    } else {
      TransmitReply(c, self, from, AppendEntriesResponse(n.term, false), now);
    }
  }
}
