/** The first scenario of the demonstration driver (main.rb): three nodes, each
    a peer of the other two, start an election one after the other. Since a
    node that grants a newer term keeps its role, every node ends as leader. */
module Scenarios {
  import opened NodeState
  import opened MessageHandler
  import opened DistributedNode

  /** The peers of node `k` in the mesh, in registration order. */
  function Others(k: NodeId): seq<NodeId> {
    if k == 1 then [2, 3] else if k == 2 then [1, 3] else [1, 2]
  }

  /** Three nodes, all up, all in term `t`, each a peer of the other two. */
  predicate Ready(c: Nodes, t: nat) {
    && c.Keys == {1, 2, 3} && Valid(c)
    && forall k :: k in c ==> c[k].active && c[k].term == t && c[k].peers == Others(k)
  }

  /** Registering two distinct peers with a node that has none gives it
      exactly those two, in order. */
  lemma RegisterTwo(c: Nodes, self: NodeId, p: NodeId, q: NodeId)
    requires self in c && c[self].peers == [] && p != q
    ensures RegisterPeer(RegisterPeer(c, self, p), self, q) == c[self := c[self].(peers := [p, q])]
  {
    var c1 := RegisterPeer(c, self, p);
    assert [] + [p] == [p];
    assert c1 == c[self := c[self].(peers := [p])];
    assert q !in c1[self].peers && [p] + [q] == [p, q];
    assert RegisterPeer(c1, self, q) == c1[self := c1[self].(peers := [p, q])];
  }

  /** The driver's setup: three fresh nodes (`DistributedNode.new`), each then
      registering the other two as peers in increasing order (`add_neighbour`,
      which is `register_peer`). */
  function Mesh(): Nodes {
    var added := AddNode(AddNode(AddNode(map[], 1), 2), 3);
    var one := RegisterPeer(RegisterPeer(added, 1, 2), 1, 3);
    var two := RegisterPeer(RegisterPeer(one, 2, 1), 2, 3);
    RegisterPeer(RegisterPeer(two, 3, 1), 3, 2)
  }

  /** The mesh node by node: each node is fresh but for its two peers. */
  lemma MeshNodes()
    ensures var m := Mesh();
      && m.Keys == {1, 2, 3}
      && m[1] == NewNode(1).(peers := [2, 3])
      && m[2] == NewNode(2).(peers := [1, 3])
      && m[3] == NewNode(3).(peers := [1, 2])
  {
    var added := AddNode(AddNode(AddNode(map[], 1), 2), 3);
    RegisterTwo(added, 1, 2, 3);
    var one := RegisterPeer(RegisterPeer(added, 1, 2), 1, 3);
    RegisterTwo(one, 2, 1, 3);
    var two := RegisterPeer(RegisterPeer(one, 2, 1), 2, 3);
    RegisterTwo(two, 3, 1, 2);
  }

  /** Two distinct identifiers form a list without duplicates. */
  lemma NoDupPair(a: NodeId, b: NodeId)
    requires a != b
    ensures NoDup([a, b])
  {
    assert [a, b][1..] == [b];
  }

  /** Three fresh nodes, each with the other two as peers, are ready for the
      scenario at term 0, all followers. */
  lemma FreshMeshReady(m: Nodes)
    requires m.Keys == {1, 2, 3}
    requires m[1] == NewNode(1).(peers := [2, 3])
    requires m[2] == NewNode(2).(peers := [1, 3])
    requires m[3] == NewNode(3).(peers := [1, 2])
    ensures Ready(m, 0) && forall k :: k in m ==> m[k].role == Follower
  {
    NoDupPair(2, 3);
    NoDupPair(1, 3);
    NoDupPair(1, 2);
    forall k | k in m
      ensures m[k] == NewNode(k).(peers := Others(k)) && Linked(m, k)
    {
      assert k == 1 || k == 2 || k == 3;
    }
  }

  /** The driver's setup gives three up, well-formed followers in term 0, each
      a peer of the other two. */
  lemma MeshReady()
    ensures Ready(Mesh(), 0)
    ensures forall k :: k in Mesh() ==> Mesh()[k].role == Follower
  {
    MeshNodes();
    FreshMeshReady(Mesh());
  }

  /** In the mesh at a common term, every peer of a candidate for the next
      term grants it a vote that makes it back. */
  lemma MeshGrants(c: Nodes, self: NodeId, t: nat)
    requires self in c && Ready(c, t)
    ensures GrantCount(c, self, c[self].peers, t + 1) == 2
  {
    var ps := c[self].peers;
    assert ps[0] in c && ps[1] in c;
    assert ps[1..][1..] == [];
  }

  /** The facts one election establishes, on any cluster `r` that follows the
      candidate `self` from `c` as the election lemmas say. */
  predicate Elected(c: Nodes, r: Nodes, self: NodeId)
    requires self in c
  {
    && r.Keys == c.Keys && self in r && (Valid(c) ==> Valid(r))
    && (forall k :: k in c ==> r[k].peers == c[k].peers && r[k].active == c[k].active)
    && r[self].term == c[self].term + 1 && r[self].role == Leader
    && forall p :: p in c[self].peers && p in r ==> Protocol(r[p]) == Protocol(Grant(c[p], self, c[self].term + 1))
  }

  /** What the scenario needs of one election, read off Elected: the mesh moves
      to the next term, and the peers keep their roles. */
  lemma MeshStep(c: Nodes, r: Nodes, self: NodeId, t: nat)
    requires self in c && Ready(c, t) && Elected(c, r, self)
    ensures Ready(r, t + 1)
    ensures forall k :: k in c && k != self ==> r[k].role == c[k].role
  {
    forall k | k in c && k != self
      ensures r[k].role == c[k].role && r[k].term == t + 1
    {
      assert k in c[self].peers;
      assert Protocol(r[k]).role == r[k].role && Protocol(r[k]).term == r[k].term;
    }
  }

  /** One election of the scenario: the candidate reaches the next term and
      wins both peers' votes, becoming leader; both peers adopt the new term and
      keep their roles. */
  lemma ElectionInMesh(c: Nodes, self: NodeId, t: nat, now: Stamp)
    requires self in c && Ready(c, t)
    ensures var r := StartElection(c, self, now);
      && Ready(r, t + 1) && r[self].role == Leader
      && forall k :: k in c && k != self ==> r[k].role == c[k].role
  {
    var r := StartElection(c, self, now);
    assert Linked(c, self) && self !in c[self].peers;
    ElectionKeepsMembership(c, self, now);
    ElectionKeepsCandidacy(c, self, now);
    MeshGrants(c, self, t);
    ElectionOutcome(c, self, now);
    ElectionReachesPeers(c, self, now);
    MeshStep(c, r, self, t);
  }

  /** Scenario 1 of the driver: nodes 1, 2 and 3 start an election in turn, on
      the mesh (MeshReady) or any cluster shaped like it. Every one of them
      wins, each in the next term, so all three end as leaders. */
  lemma ConcurrentElections(c: Nodes, t: nat, at1: Stamp, at2: Stamp, at3: Stamp)
    requires Ready(c, t)
    ensures var c1 := StartElection(c, 1, at1);
      Ready(c1, t + 1) &&
      var c2 := StartElection(c1, 2, at2);
      Ready(c2, t + 2) &&
      var c3 := StartElection(c2, 3, at3);
      Ready(c3, t + 3) && c3[1].role == Leader && c3[2].role == Leader && c3[3].role == Leader
  {
    ElectionInMesh(c, 1, t, at1);
    var c1 := StartElection(c, 1, at1);
    ElectionInMesh(c1, 2, t + 1, at2);
    var c2 := StartElection(c1, 2, at2);
    ElectionInMesh(c2, 3, t + 2, at3);
  }
}
