/** The data of a simulated consensus node (lib/distributed_node.rb) and the
    node-local operations that touch no other node: recording an activity
    (lib/logger.rb) and becoming leader. Nodes refer to each other by identifier;
    a cluster is a map from identifier to node. */
module NodeState {
  import Logger

  type NodeId = int
  /** An application-level value proposed by `suggest_state`. */
  type Value = string
  /** A formatted clock reading, the prefix of every activity line. */
  type Stamp = string

  datatype Option<T> = None | Some(value: T)

  datatype Role = Follower | Candidate | Leader

  datatype LogEntry = LogEntry(term: nat, state: Value)

  /** The four message kinds the nodes send, and any other tag, which the
      dispatcher ignores. */
  datatype Message =
    | VoteRequest(term: nat)
    | VoteResponse(term: nat, granted: bool)
    | AppendEntries(term: nat, entries: seq<LogEntry>)
    | AppendEntriesResponse(term: nat, success: bool)
    | Unrecognised(kind: string)

  /** What a node records in its activity log. */
  datatype Event =
    | SuggestedState(state: Value)
    | StartedElection(term: nat)
    | BecameLeader(term: nat)
    | TransmitFailed(target: NodeId)
    | Transmitted(target: NodeId, message: Message)
    | Received(sender: NodeId, message: Message)
    | Partitioned(nodes: seq<NodeId>)
    | Failed(node: NodeId)
    | Recovered(node: NodeId)

  datatype Activity = Activity(stamp: Stamp, event: Event)

  /** The instance variables of a `DistributedNode`. `votes` is unset until the
      node first starts an election or counts a vote. */
  datatype Node = Node(
    id: NodeId,
    peers: seq<NodeId>,
    currentState: Option<Value>,
    activityLog: seq<Activity>,
    term: nat,
    votedFor: Option<NodeId>,
    votes: Option<nat>,
    logEntries: seq<LogEntry>,
    role: Role,
    active: bool)

  type Nodes = map<NodeId, Node>

  /** A freshly initialised node. */
  function NewNode(id: NodeId): (n: Node)
    ensures n.id == id && n.term == 0 && n.role == Follower && n.active
    ensures n.votedFor == None && n.votes == None && n.currentState == None
    ensures n.peers == [] && n.logEntries == [] && n.activityLog == []
  {
    Node(id, [], None, [], 0, None, None, [], Follower, true)
  }

  /** `record_activity`: the log grows by exactly one activity at its end; the
      earlier activities and every other field stay as they were. */
  function Record(n: Node, e: Event, now: Stamp): (r: Node)
    ensures |r.activityLog| == |n.activityLog| + 1
    ensures r.activityLog[..|n.activityLog|] == n.activityLog
    ensures r.activityLog[|n.activityLog|] == Activity(now, e)
    ensures r.(activityLog := n.activityLog) == n
  {
    n.(activityLog := n.activityLog + [Activity(now, e)])
  }

  /** `become_leader`: the role becomes leader and one event is recorded; term,
      log and peers are left alone. */
  function BecomeLeader(n: Node, now: Stamp): (r: Node)
    ensures r.role == Leader
    ensures r.activityLog == n.activityLog + [Activity(now, BecameLeader(n.term))]
    ensures r.(role := n.role, activityLog := n.activityLog) == n
  {
    Record(n.(role := Leader), BecameLeader(n.term), now)
  }

  /** The vote tally, counting an unset tally as zero (`@votes ||= 0`). */
  function VoteCount(n: Node): nat {
    if n.votes.Some? then n.votes.value else 0
  }

  /** More granted votes than half the peers, rounded down. */
  predicate HasMajority(n: Node) {
    n.votes.Some? && n.votes.value > |n.peers| / 2
  }

  /** Everything of a node except its activity log. */
  function Protocol(n: Node): Node {
    n.(activityLog := [])
  }

  /** No identifier occurs twice. */
  predicate NoDup(s: seq<NodeId>) {
    s == [] || (s[0] !in s[1..] && NoDup(s[1..]))
  }

  /** Appending an identifier not yet present keeps a list free of duplicates. */
  lemma {:induction false} NoDupSnoc(s: seq<NodeId>, x: NodeId)
    ensures NoDup(s) && x !in s ==> NoDup(s + [x])
  {
    if s != [] && NoDup(s) && x !in s {
      assert (s + [x])[1..] == s[1..] + [x];
      assert s[0] != x;
      NoDupSnoc(s[1..], x);
    }
  }

  /** An element of a non-empty list is its head or an element of its tail. */
  lemma InTail(s: seq<NodeId>)
    requires s != []
    ensures forall x :: x in s <==> x == s[0] || x in s[1..]
  {
    assert s == [s[0]] + s[1..];
  }

  /** Node `k` sits under its own identifier, holds each peer once, and only
      peers that exist (object references in the source always do). */
  predicate Linked(c: Nodes, k: NodeId)
    requires k in c
  {
    c[k].id == k && NoDup(c[k].peers) && forall p :: p in c[k].peers ==> p in c
  }

  /** Every node of the cluster is linked. */
  predicate Valid(c: Nodes) {
    forall k :: k in c ==> Linked(c, k)
  }

  /** How message handling may change one node: identity, peers, liveness and
      proposed value stay; the term never decreases; the replicated log and the
      activity log only grow at their ends; the vote tally never goes down; and a
      node that was not leader becomes one only holding a majority. */
  predicate Steps(a: Node, b: Node) {
    && b.id == a.id && b.peers == a.peers && b.active == a.active
    && b.currentState == a.currentState
    && a.term <= b.term
    && a.logEntries <= b.logEntries
    && a.activityLog <= b.activityLog
    && (a.votes.Some? ==> b.votes.Some? && a.votes.value <= b.votes.value)
    && (b.role == Leader && a.role != Leader ==> HasMajority(b))
  }

  /** Message handling changes each node of the cluster only as Steps allows. */
  predicate Progresses(c: Nodes, r: Nodes) {
    r.Keys == c.Keys && forall k :: k in c ==> Steps(c[k], r[k])
  }

  /** Nodes other than `a` and `b` are left exactly as they were. */
  predicate Untouched(c: Nodes, r: Nodes, a: NodeId, b: NodeId)
    requires r.Keys == c.Keys
  {
    forall k :: k in c && k != a && k != b ==> r[k] == c[k]
  }

  // The text of the activity log (retrieve_activity_log).

  function DigitText(d: nat): (s: string)
    requires d < 10
    ensures |s| == 1 && '0' <= s[0] <= '9'
  {
    ["0123456789"[d]]
  }

  /** The digit rendered for `d` denotes `d`. */
  lemma DigitTextValue(d: nat)
    requires d < 10
    ensures (DigitText(d)[0] - '0') as nat == d
  {
    if d < 5 {
      assert d == 0 || d == 1 || d == 2 || d == 3 || d == 4;
    } else {
      assert d == 5 || d == 6 || d == 7 || d == 8 || d == 9;
    }
  }

  /** Decimal digits of a natural number, most significant first. */
  function NatText(n: nat): (s: string)
    ensures |s| >= 1
    ensures forall i :: 0 <= i < |s| ==> '0' <= s[i] <= '9'
  {
    if n < 10 then DigitText(n) else NatText(n / 10) + DigitText(n % 10)
  }

  /** The number a string of decimal digits denotes; the reference inverse of NatText. */
  function DigitsValue(s: string): nat
    requires forall i :: 0 <= i < |s| ==> '0' <= s[i] <= '9'
  {
    if s == [] then 0 else 10 * DigitsValue(s[..|s| - 1]) + (s[|s| - 1] - '0') as nat
  }

  /** Reading the rendered digits back gives the number. */
  lemma {:induction false} NatTextRoundTrip(n: nat)
    ensures DigitsValue(NatText(n)) == n
  {
    if n >= 10 {
      NatTextRoundTrip(n / 10);
      var s := NatText(n);
      DigitTextValue(n % 10);
      assert s == NatText(n / 10) + DigitText(n % 10);
      assert s[..|s| - 1] == NatText(n / 10);
    }
  }

  function IntText(i: int): (s: string)
    ensures Logger.NoNewline(s)
  {
    if i < 0 then "-" + NatText(-i) else NatText(i)
  }

  function BoolText(b: bool): string {
    if b then "true" else "false"
  }

  function Quoted(s: string): string {
    "\"" + s + "\""
  }

  /** A Ruby hash as it is interpolated: its pairs between braces. */
  function Braced(pairs: string): string {
    "{" + pairs + "}"
  }

  lemma BracedPlain(pairs: string)
    requires Logger.NoNewline(pairs)
    ensures Logger.NoNewline(Braced(pairs))
  {
    Logger.NoNewlineCat("{", pairs);
    Logger.NoNewlineCat("{" + pairs, "}");
  }

  /** A value quoted as `inspect` quotes a string, without escaping. */
  function EntryText(e: LogEntry): (s: string)
    ensures Logger.NoNewline(e.state) ==> Logger.NoNewline(s)
  {
    Braced(":term=>" + NatText(e.term) + ", :state=>" + Quoted(e.state))
  }

  function EntriesText(es: seq<LogEntry>): (s: string)
    ensures (forall i :: 0 <= i < |es| ==> Logger.NoNewline(es[i].state)) ==> Logger.NoNewline(s)
  {
    if |es| == 0 then ""
    else if |es| == 1 then EntryText(es[0])
    else EntryText(es[0]) + ", " + EntriesText(es[1..])
  }

  /** A message whose free-form parts (entry values, an unknown tag) hold no newline. */
  predicate PlainMessage(m: Message) {
    match m
    case AppendEntries(_, es) => forall i :: 0 <= i < |es| ==> Logger.NoNewline(es[i].state)
    case Unrecognised(kind) => Logger.NoNewline(kind)
    case _ => true
  }

  /** The message hash as Ruby interpolates it: one pair of braces around the
      pairs, on one line unless a value holds a newline. */
  function MessageText(m: Message): (s: string)
    ensures |s| >= 2 && s[0] == '{' && s[|s| - 1] == '}'
  {
    match m
    case VoteRequest(t) =>
      Braced(":type=>\"vote_request\", :term=>" + NatText(t))
    case VoteResponse(t, g) =>
      Braced(":type=>\"vote_response\", :term=>" + NatText(t) + ", :vote_granted=>" + BoolText(g))
    case AppendEntries(t, es) =>
      Braced(":type=>\"append_entries\", :term=>" + NatText(t) + ", :entries=>[" + EntriesText(es) + "]")
    case AppendEntriesResponse(t, s) =>
      Braced(":type=>\"append_entries_response\", :term=>" + NatText(t) + ", :success=>" + BoolText(s))
    case Unrecognised(kind) =>
      Braced(":type=>" + Quoted(kind))
  }

  function IdsText(ids: seq<NodeId>): (s: string)
    ensures Logger.NoNewline(s)
  {
    if |ids| == 0 then ""
    else if |ids| == 1 then IntText(ids[0])
    else IntText(ids[0]) + ", " + IdsText(ids[1..])
  }

  /** An event whose free-form parts (a proposed value, a message) hold no newline. */
  predicate PlainEvent(e: Event) {
    match e
    case SuggestedState(v) => Logger.NoNewline(v)
    case Transmitted(_, m) => PlainMessage(m)
    case Received(_, m) => PlainMessage(m)
    case _ => true
  }

  /** The activity text a node records for each event: never empty, and one
      line unless a proposed value or a message holds a newline. */
  function EventText(e: Event): (s: string)
    ensures |s| > 0
  {
    match e
    case SuggestedState(v) => "Suggested new state: " + v
    case StartedElection(t) => "Started election for term " + NatText(t)
    case BecameLeader(t) => "Became leader for term " + NatText(t)
    case TransmitFailed(id) => "Failed to transmit message to Node " + IntText(id) + ": Not a peer"
    case Transmitted(id, m) => "Transmitted message to Node " + IntText(id) + ": " + MessageText(m)
    case Received(id, m) => "Received message from Node " + IntText(id) + ": " + MessageText(m)
    case Partitioned(ids) => "Simulated partition with nodes " + IdsText(ids)
    case Failed(id) => "Simulated failure of node " + IntText(id)
    case Recovered(id) => "Node " + IntText(id) + " recovered from failure"
  }

  /** The fixed parts of a rendered message hold no newline. */
  lemma MessageLiterals0()
    ensures Logger.NoNewline(":type=>\"vote_request\", :term=>")
    ensures Logger.NoNewline(":type=>\"vote_response\", :term=>")
    ensures Logger.NoNewline(", :vote_granted=>")
  {
  }

  lemma MessageLiterals1()
    ensures Logger.NoNewline(":type=>\"append_entries\", :term=>")
    ensures Logger.NoNewline(", :entries=>[")
    ensures Logger.NoNewline("]")
  {
  }

  lemma MessageLiterals2()
    ensures Logger.NoNewline(":type=>\"append_entries_response\", :term=>")
    ensures Logger.NoNewline(", :success=>")
    ensures Logger.NoNewline(":type=>")
  {
  }

  lemma MessageLiterals3()
    ensures Logger.NoNewline("\"")
    ensures Logger.NoNewline("true")
    ensures Logger.NoNewline("false")
  {
  }

  /** The fixed parts of an activity text hold no newline. */
  lemma EventLiterals0()
    ensures Logger.NoNewline("Suggested new state: ")
    ensures Logger.NoNewline("Started election for term ")
    ensures Logger.NoNewline("Became leader for term ")
  {
  }

  lemma EventLiterals1()
    ensures Logger.NoNewline("Failed to transmit message to Node ")
    ensures Logger.NoNewline(": Not a peer")
    ensures Logger.NoNewline("Transmitted message to Node ")
  {
  }

  lemma EventLiterals2()
    ensures Logger.NoNewline(": ")
    ensures Logger.NoNewline("Received message from Node ")
    ensures Logger.NoNewline("Simulated partition with nodes ")
  {
  }

  lemma EventLiterals3()
    ensures Logger.NoNewline("Simulated failure of node ")
    ensures Logger.NoNewline("Node ")
    ensures Logger.NoNewline(" recovered from failure")
  {
  }

  /** A message with no newline in its free-form parts is rendered on one line. */
  lemma MessageTextPlain(m: Message)
    requires PlainMessage(m)
    ensures Logger.NoNewline(MessageText(m))
  {
    MessageLiterals0();
    MessageLiterals1();
    MessageLiterals2();
    MessageLiterals3();
    match m
    case VoteRequest(t) =>
      var p := ":type=>\"vote_request\", :term=>";
      Logger.NoNewlineCat(p, NatText(t));
      BracedPlain(p + NatText(t));
    case VoteResponse(t, g) =>
      var p, q := ":type=>\"vote_response\", :term=>", ", :vote_granted=>";
      Logger.NoNewlineCat(p, NatText(t));
      Logger.NoNewlineCat(q, BoolText(g));
      Logger.NoNewlineCat(p + NatText(t), q + BoolText(g));
      assert p + NatText(t) + q + BoolText(g) == (p + NatText(t)) + (q + BoolText(g));
      BracedPlain(p + NatText(t) + q + BoolText(g));
    case AppendEntries(t, es) =>
      var p, q := ":type=>\"append_entries\", :term=>", ", :entries=>[";
      Logger.NoNewlineCat(p, NatText(t));
      Logger.NoNewlineCat(q, EntriesText(es));
      Logger.NoNewlineCat(q + EntriesText(es), "]");
      Logger.NoNewlineCat(p + NatText(t), q + EntriesText(es) + "]");
      assert p + NatText(t) + q + EntriesText(es) + "]" == (p + NatText(t)) + (q + EntriesText(es) + "]");
      BracedPlain(p + NatText(t) + q + EntriesText(es) + "]");
    case AppendEntriesResponse(t, b) =>
      var p, q := ":type=>\"append_entries_response\", :term=>", ", :success=>";
      Logger.NoNewlineCat(p, NatText(t));
      Logger.NoNewlineCat(q, BoolText(b));
      Logger.NoNewlineCat(p + NatText(t), q + BoolText(b));
      assert p + NatText(t) + q + BoolText(b) == (p + NatText(t)) + (q + BoolText(b));
      BracedPlain(p + NatText(t) + q + BoolText(b));
    case Unrecognised(kind) =>
      var p := ":type=>";
      Logger.NoNewlineCat("\"" + kind, "\"");
      Logger.NoNewlineCat(p, Quoted(kind));
      BracedPlain(p + Quoted(kind));
  }

  /** An event with no newline in its free-form parts is rendered on one line. */
  lemma EventTextPlain(e: Event)
    requires PlainEvent(e)
    ensures Logger.NoNewline(EventText(e))
  {
    EventLiterals0();
    EventLiterals1();
    EventLiterals2();
    EventLiterals3();
    match e
    case SuggestedState(v) =>
      var p := "Suggested new state: ";
      Logger.NoNewlineCat(p, v);
    case StartedElection(t) =>
      var p := "Started election for term ";
      Logger.NoNewlineCat(p, NatText(t));
    case BecameLeader(t) =>
      var p := "Became leader for term ";
      Logger.NoNewlineCat(p, NatText(t));
    case TransmitFailed(id) =>
      var p, q := "Failed to transmit message to Node ", ": Not a peer";
      Logger.NoNewlineCat(p, IntText(id));
      Logger.NoNewlineCat(p + IntText(id), q);
    case Transmitted(id, m) =>
      var p, q := "Transmitted message to Node ", ": ";
      MessageTextPlain(m);
      Logger.NoNewlineCat(p, IntText(id));
      Logger.NoNewlineCat(p + IntText(id), q);
      Logger.NoNewlineCat(p + IntText(id) + q, MessageText(m));
    case Received(id, m) =>
      var p, q := "Received message from Node ", ": ";
      MessageTextPlain(m);
      Logger.NoNewlineCat(p, IntText(id));
      Logger.NoNewlineCat(p + IntText(id), q);
      Logger.NoNewlineCat(p + IntText(id) + q, MessageText(m));
    case Partitioned(ids) =>
      var p := "Simulated partition with nodes ";
      Logger.NoNewlineCat(p, IdsText(ids));
    case Failed(id) =>
      var p := "Simulated failure of node ";
      Logger.NoNewlineCat(p, IntText(id));
    case Recovered(id) =>
      var p, q := "Node ", " recovered from failure";
      Logger.NoNewlineCat(p, IntText(id));
      Logger.NoNewlineCat(p + IntText(id), q);
  }

  /** The stored line of one activity. */
  function Line(a: Activity): string {
    Logger.Stamped(a.stamp, EventText(a.event))
  }

  function Lines(log: seq<Activity>): (lines: seq<string>)
    ensures |lines| == |log|
  {
    seq(|log|, i requires 0 <= i < |log| => Line(log[i]))
  }

  /** `retrieve_activity_log`: the stored lines joined by newlines. The text is
      empty exactly when nothing was recorded, and otherwise begins with the
      oldest line. */
  function RetrieveActivityLog(n: Node): (s: string)
    ensures s == "" <==> n.activityLog == []
    ensures n.activityLog != [] ==> Line(n.activityLog[0]) <= s
  {
    Logger.Join(Lines(n.activityLog))
  }

  /** When no stamp and no event holds a newline, the retrieved text cuts at its
      newlines into exactly the stored lines, oldest first. */
  lemma LogReadsBack(n: Node)
    requires n.activityLog != []
    requires forall i :: 0 <= i < |n.activityLog| ==>
      Logger.NoNewline(n.activityLog[i].stamp) && PlainEvent(n.activityLog[i].event)
    ensures Logger.Split(RetrieveActivityLog(n)) == Lines(n.activityLog)
  {
    var lines := Lines(n.activityLog);
    forall i | 0 <= i < |lines| ensures Logger.NoNewline(lines[i]) {
      var a := n.activityLog[i];
      EventTextPlain(a.event);
      Logger.NoNewlineCat("[" + a.stamp, "] " + EventText(a.event));
    }
    Logger.SplitJoin(lines);
  }

  /** Recording an activity extends the retrieved text by a newline (none for the
      first activity) and exactly the new line, which ends with the activity text. */
  lemma RetrieveAfterRecord(n: Node, e: Event, now: Stamp)
    ensures RetrieveActivityLog(Record(n, e, now)) ==
      (if n.activityLog == [] then "" else RetrieveActivityLog(n) + "\n") + Line(Activity(now, e))
  {
    var lines, line := Lines(n.activityLog), Line(Activity(now, e));
    assert Record(n, e, now).activityLog == n.activityLog + [Activity(now, e)];
    assert Lines(n.activityLog + [Activity(now, e)]) == lines + [line];
    Logger.JoinSnoc(lines, line);
  }
}
