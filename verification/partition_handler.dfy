/** Fault injection on a cluster of nodes (lib/partition_handler.rb): cutting
    the links between a node and a list of others, and failing and recovering a
    node. */
module PartitionHandler {
  import opened NodeState
  import MessageHandler

  /** Ruby's array difference `xs - ys`: the elements of `xs` that do not occur
      in `ys`, every occurrence dropped, the rest in their order. */
  function Without(xs: seq<NodeId>, ys: seq<NodeId>): (r: seq<NodeId>)
    ensures |r| <= |xs|
    ensures forall x :: x in r <==> x in xs && x !in ys
  {
    if xs == [] then []
    else
      assert xs == [xs[0]] + xs[1..];
      (if xs[0] in ys then [] else [xs[0]]) + Without(xs[1..], ys)
  }

  /** The difference works element by element, so the kept elements stay in
      their relative order: cutting a concatenation cuts each part. */
  lemma {:induction false} WithoutAppend(xs: seq<NodeId>, zs: seq<NodeId>, ys: seq<NodeId>)
    ensures Without(xs + zs, ys) == Without(xs, ys) + Without(zs, ys)
  {
    if xs != [] {
      assert (xs + zs)[1..] == xs[1..] + zs;
      WithoutAppend(xs[1..], zs, ys);
    } else {
      assert xs + zs == zs;
    }
  }

  /** Nothing listed occurs: the difference is the list itself. */
  lemma {:induction false} WithoutNone(xs: seq<NodeId>, ys: seq<NodeId>)
    requires forall y :: y in ys ==> y !in xs
    ensures Without(xs, ys) == xs
  {
    if xs != [] {
      InTail(xs);
      WithoutNone(xs[1..], ys);
    }
  }

  /** Cutting again anything already cut changes nothing; in particular the
      difference is idempotent. */
  lemma WithoutAbsorb(xs: seq<NodeId>, ys: seq<NodeId>, zs: seq<NodeId>)
    requires forall z :: z in zs ==> z in ys
    ensures Without(Without(xs, ys), zs) == Without(xs, ys)
  {
    WithoutNone(Without(xs, ys), zs);
  }

  /** A list free of duplicates stays free of them. */
  lemma {:induction false} WithoutNoDup(xs: seq<NodeId>, ys: seq<NodeId>)
    requires NoDup(xs)
    ensures NoDup(Without(xs, ys))
  {
    if xs != [] {
      WithoutNoDup(xs[1..], ys);
      var rest := Without(xs[1..], ys);
      if xs[0] in ys {
        assert Without(xs, ys) == rest;
      } else {
        assert xs[0] !in rest;
        assert Without(xs, ys) == [xs[0]] + rest;
        assert ([xs[0]] + rest)[1..] == rest;
      }
    }
  }

  /** The peers of node `k` with `self` cut out. */
  function Detached(n: Node, self: NodeId): Node {
    n.(peers := Without(n.peers, [self]))
  }

  /** The loop of `simulate_partition`: each listed node, in order, drops `self`
      from its own peers. */
  function DetachAll(c: Nodes, self: NodeId, ns: seq<NodeId>): (r: Nodes)
    requires forall p :: p in ns ==> p in c
    ensures r.Keys == c.Keys
    decreases |ns|
  {
    if ns == [] then c
    else
      var p := ns[0];
      assert p in ns;
      DetachAll(c[p := Detached(c[p], self)], self, ns[1..])
  }

  /** Each listed node, however often it is listed, ends with `self` cut from its
      peers; every other node is untouched. */
  lemma {:induction false} DetachAllOutcome(c: Nodes, self: NodeId, ns: seq<NodeId>)
    requires forall p :: p in ns ==> p in c
    ensures forall k :: k in c ==> DetachAll(c, self, ns)[k] == if k in ns then Detached(c[k], self) else c[k]
  {
    if ns != [] {
      var p := ns[0];
      assert p in ns;
      var c1 := c[p := Detached(c[p], self)];
      DetachAllOutcome(c1, self, ns[1..]);
      WithoutAbsorb(c[p].peers, [self], [self]);
      InTail(ns);
    }
  }

  /** `simulate_partition(ns)` as evidently intended: the node cuts every listed
      node from its peers, each listed node cuts the node from its own, and the
      partition is recorded. */
  function SimulatePartition(c: Nodes, self: NodeId, ns: seq<NodeId>, now: Stamp): (r: Nodes)
    requires self in c && forall p :: p in ns ==> p in c
    ensures r.Keys == c.Keys
  {
    var cut := c[self := c[self].(peers := Without(c[self].peers, ns))];
    var detached := DetachAll(cut, self, ns);
    detached[self := Record(detached[self], Partitioned(ns), now)]
  }

  /** What a partition does to each node: the node keeps only its peers that
      are not listed, in their order, and records one activity; a listed node
      loses the node from its peers; every other node, and every other field,
      stays as it was. */
  lemma PartitionOutcome(c: Nodes, self: NodeId, ns: seq<NodeId>, now: Stamp)
    requires self in c && forall p :: p in ns ==> p in c
    ensures var r := SimulatePartition(c, self, ns, now);
      && r[self].peers == Without(c[self].peers, ns)
      && r[self].activityLog == c[self].activityLog + [Activity(now, Partitioned(ns))]
      && r[self].(peers := c[self].peers, activityLog := c[self].activityLog) == c[self]
      && forall k :: k in c && k != self ==> r[k] == if k in ns then Detached(c[k], self) else c[k]
  {
    var cut := c[self := c[self].(peers := Without(c[self].peers, ns))];
    DetachAllOutcome(cut, self, ns);
    if self in ns {
      WithoutAbsorb(c[self].peers, ns, [self]);
    }
  }

  /** After a partition no listed node is a peer of the node, and the node is a
      peer of no listed node: the cut is symmetric. */
  lemma PartitionSeparates(c: Nodes, self: NodeId, ns: seq<NodeId>, now: Stamp)
    requires self in c && forall p :: p in ns ==> p in c
    ensures var r := SimulatePartition(c, self, ns, now);
      forall p :: p in ns ==> p !in r[self].peers && self !in r[p].peers
  {
    PartitionOutcome(c, self, ns, now);
  }

  /** A partition keeps every node's term, role, vote, tally, liveness, value
      and replicated log, and appends exactly one activity to the node itself
      and none to any other. */
  lemma PartitionKeepsProtocol(c: Nodes, self: NodeId, ns: seq<NodeId>, now: Stamp)
    requires self in c && forall p :: p in ns ==> p in c
    ensures var r := SimulatePartition(c, self, ns, now);
      forall k :: k in c ==>
        && r[k].(peers := c[k].peers, activityLog := c[k].activityLog) == c[k]
        && r[k].activityLog == c[k].activityLog + (if k == self then [Activity(now, Partitioned(ns))] else [])
  {
    PartitionOutcome(c, self, ns, now);
  }

  /** A partition keeps the cluster well formed: peers stay existing nodes,
      held once each. */
  lemma PartitionValid(c: Nodes, self: NodeId, ns: seq<NodeId>, now: Stamp)
    requires Valid(c) && self in c && forall p :: p in ns ==> p in c
    ensures Valid(SimulatePartition(c, self, ns, now))
  {
    var r := SimulatePartition(c, self, ns, now);
    PartitionOutcome(c, self, ns, now);
    forall k | k in r ensures Linked(r, k) {
      assert Linked(c, k);
      WithoutNoDup(c[k].peers, ns);
      WithoutNoDup(c[k].peers, [self]);
    }
  }

  /** How a call ends in Ruby: normally, or by an exception raised after
      part of the state was already changed. */
  datatype Outcome = Returned(state: Nodes) | Raised(state: Nodes)

  /** `simulate_partition(ns)` as written: the node cuts the listed nodes from its
      own peers, but `node.peers -= [self]` calls a writer `peers=` that nodes do
      not have (they only expose a reader), so the first listed node raises
      NoMethodError and nothing else happens. */
  function SimulatePartitionAsWritten(c: Nodes, self: NodeId, ns: seq<NodeId>, now: Stamp): (r: Outcome)
    requires self in c && forall p :: p in ns ==> p in c
    ensures r.Returned? <==> ns == []
    ensures r.state.Keys == c.Keys
    ensures r.state[self].peers == Without(c[self].peers, ns)
    ensures forall p :: p in c && p != self ==> r.state[p] == c[p]
  {
    var cut := c[self := c[self].(peers := Without(c[self].peers, ns))];
    if ns == [] then Returned(cut[self := Record(cut[self], Partitioned(ns), now)])
    else Raised(cut)
  }

  /** The written partition only works on an empty list. On any other list it
      raises: the listed nodes keep the node among their peers, so the cut is
      one-sided, and no partition is recorded. */
  lemma PartitionAsWrittenRaises(c: Nodes, self: NodeId, ns: seq<NodeId>, now: Stamp)
    requires self in c && forall p :: p in ns ==> p in c
    ensures var r := SimulatePartitionAsWritten(c, self, ns, now);
      && (ns == [] ==> r == Returned(SimulatePartition(c, self, ns, now)))
      && (ns != [] ==>
            && r.Raised?
            && r.state[self].peers == Without(c[self].peers, ns)
            && r.state[self].activityLog == c[self].activityLog
            && forall p :: p in ns && p != self ==> r.state[p] == c[p])
  {
    if ns == [] {
      var cut := c[self := c[self].(peers := Without(c[self].peers, ns))];
      assert DetachAll(cut, self, ns) == cut;
    }
  }

  /** A witness: two nodes peered with each other. Partitioning one from the
      other as written leaves the other still holding it as a peer, where the
      intended partition (PartitionSeparates) removes it. */
  lemma PartitionAsWrittenOneSided(now: Stamp)
    ensures var c := map[1 := NewNode(1).(peers := [2]), 2 := NewNode(2).(peers := [1])];
      var r := SimulatePartitionAsWritten(c, 1, [2], now);
      && r.Raised? && r.state[1].peers == [] && 1 in r.state[2].peers
      && 1 !in SimulatePartition(c, 1, [2], now)[2].peers
  {
    var c := map[1 := NewNode(1).(peers := [2]), 2 := NewNode(2).(peers := [1])];
    PartitionAsWrittenRaises(c, 1, [2], now);
    PartitionSeparates(c, 1, [2], now);
    assert 1 in [1];
    assert forall x :: x !in Without([2], [2]);
  }

  /** `simulate_failure`: the node goes down and records it; nothing else of it
      changes. */
  function Failure(n: Node, now: Stamp): (r: Node)
    ensures !r.active
    ensures r.activityLog == n.activityLog + [Activity(now, Failed(n.id))]
    ensures r.(active := n.active, activityLog := n.activityLog) == n
  {
    Record(n.(active := false), Failed(n.id), now)
  }

  /** `recover_from_failure`: the node comes back up and records it; term,
      role, log and peers are as they were, with no catch-up. */
  function Recovery(n: Node, now: Stamp): (r: Node)
    ensures r.active
    ensures r.activityLog == n.activityLog + [Activity(now, Recovered(n.id))]
    ensures r.(active := n.active, activityLog := n.activityLog) == n
  {
    Record(n.(active := true), Recovered(n.id), now)
  }

  /** A failure followed by a recovery gives back the protocol state of a node
      that was up, with exactly the two events added to its activity log. */
  lemma FailThenRecover(n: Node, now: Stamp, later: Stamp)
    requires n.active
    ensures var r := Recovery(Failure(n, now), later);
      && Protocol(r) == Protocol(n)
      && r.activityLog == n.activityLog + [Activity(now, Failed(n.id)), Activity(later, Recovered(n.id))]
  {
  }

  /** A failed node neither sends nor takes in anything: transmitting from it
      and delivering to it leave the whole cluster as it is. */
  lemma FailedIsSilent(c: Nodes, self: NodeId, other: NodeId, m: Message, now: Stamp, later: Stamp)
    requires self in c && other in c
    ensures var down := c[self := Failure(c[self], now)];
      && MessageHandler.Transmit(down, self, other, m, later) == down
      && MessageHandler.Receive(down, self, other, m, later) == down
  {
    var down := c[self := Failure(c[self], now)];
    MessageHandler.TransmitFromInactive(down, self, other, m, later);
    MessageHandler.ReceiveWhenInactive(down, self, other, m, later);
  }
}
