/** The Raft simulation as values: one node's rules and the three-node cluster that runs them. */
module RaftModel {
  import opened Wrappers
  import opened Bytes

  type NodeId = nat

  datatype Role = Follower | Candidate | Leader

  datatype LogEntry = LogEntry(term: nat, index: nat, data: seq<Byte>)

  datatype NodeState = NodeState(id: NodeId, role: Role, term: nat, votedFor: Option<NodeId>, log: seq<LogEntry>,
                                 commitIndex: nat, lastApplied: nat, nextIndex: map<NodeId, nat>,
                                 matchIndex: map<NodeId, nat>, votes: nat, peers: seq<NodeId>)

  // ---------------------------------------------------------------- one node

  function NewNode(id: NodeId, peers: seq<NodeId>): NodeState {
    NodeState(id, Follower, 0, None, [], 0, 0, map[], map[], 0, peers)
  }

  function Majority(peers: nat): nat { (peers + 1) / 2 + 1 }

  function Campaigning(s: NodeState): NodeState {
    s.(role := Candidate, term := s.term + 1, votedFor := Some(s.id), votes := 1)
  }

  function SetAll(m: map<NodeId, nat>, ids: seq<NodeId>, x: nat): map<NodeId, nat> {
    if ids == [] then m else SetAll(m, ids[..|ids| - 1], x)[ids[|ids| - 1] := x]
  }

  function Leading(s: NodeState): NodeState {
    s.(role := Leader, nextIndex := SetAll(s.nextIndex, s.peers, |s.log| + 1), matchIndex := SetAll(s.matchIndex, s.peers, 0))
  }

  function Voted(s: NodeState): (NodeState, bool) {
    if s.role != Candidate then (s, false)
    else
      var t := s.(votes := s.votes + 1);
      if t.votes >= Majority(|s.peers|) then (Leading(t), true) else (t, false)
  }

  function Appended(s: NodeState, data: seq<Byte>): (NodeState, nat) {
    if s.role != Leader then (s, 0)
    else (s.(log := s.log + [LogEntry(s.term, |s.log| + 1, data)]), |s.log| + 1)
  }

  function HolderSet(s: NodeState, n: nat): set<NodeId> { set f | f in s.matchIndex && s.matchIndex[f] >= n }

  /** How many nodes hold entry `n`, the leader among them. */
  function Holders(s: NodeState, n: nat): nat { 1 + |HolderSet(s, n)| }

  /** The leader's search from the end of its log, stopping at the first entry a majority holds. */
  function CommitFrom(s: NodeState, n: nat): nat
    requires n <= |s.log|
  {
    if n <= s.commitIndex then s.commitIndex
    else if Holders(s, n) >= Majority(|s.peers|) then (if s.log[n - 1].term == s.term then n else s.commitIndex)
    else CommitFrom(s, n - 1)
  }

  function Acknowledged(s: NodeState, follower: NodeId, index: nat): NodeState {
    if s.role != Leader then s
    else
      var t := s.(matchIndex := s.matchIndex[follower := index], nextIndex := s.nextIndex[follower := index + 1]);
      t.(commitIndex := CommitFrom(t, |t.log|))
  }

  function Applied(s: NodeState): (NodeState, seq<LogEntry>) {
    if s.lastApplied >= s.commitIndex then (s, [])
    else
      (s.(lastApplied := s.commitIndex),
       if s.lastApplied >= |s.log| then []
       else s.log[s.lastApplied..if s.commitIndex <= |s.log| then s.commitIndex else |s.log|])
  }

  // ---------------------------------------------------------------- the commit rule

  /** Terms never fall along the log, and none is above the node's own. */
  ghost predicate Rising(log: seq<LogEntry>, term: nat) {
    && (forall i, j :: 0 <= i < j < |log| ==> log[i].term <= log[j].term)
    && (forall i :: 0 <= i < |log| ==> log[i].term <= term)
  }

  ghost predicate TermsRise(s: NodeState) { Rising(s.log, s.term) }

  /** The conditions of the leader rule in Figure 2 of the extended Raft paper. */
  ghost predicate Committable(s: NodeState, n: nat) {
    s.commitIndex < n <= |s.log| && Holders(s, n) >= Majority(|s.peers|) && s.log[n - 1].term == s.term
  }

  /** Though the search stops at the first entry a majority holds, it finds the largest index the
      commit rule allows, and moves nothing when there is none. */
  lemma {:induction false} CommitRule(s: NodeState, n: nat)
    requires TermsRise(s) && n <= |s.log|
    requires forall m: nat :: n < m <= |s.log| ==> !Committable(s, m)
    ensures var c := CommitFrom(s, n);
            && (c == s.commitIndex || Committable(s, c))
            && forall m: nat :: Committable(s, m) ==> m <= c
  {
    if n > s.commitIndex {
      if Holders(s, n) >= Majority(|s.peers|) {
        forall m: nat | Committable(s, m) ensures m <= CommitFrom(s, n) {
          if m < n {
            assert s.log[m - 1].term <= s.log[n - 1].term;
          }
        }
      } else {
        assert !Committable(s, n);
        CommitRule(s, n - 1);
      }
    }
  }

  /** Without rising terms the early stop can miss a committable entry. */
  lemma FallingTermsMiss()
    ensures var s := NodeState(1, Leader, 2, None, [LogEntry(2, 1, []), LogEntry(1, 2, [])], 0, 0, map[],
                               map[2 := 2, 3 := 2], 0, [2, 3]);
            !TermsRise(s) && Committable(s, 1) && CommitFrom(s, 2) == 0
  {
    var s := NodeState(1, Leader, 2, None, [LogEntry(2, 1, []), LogEntry(1, 2, [])], 0, 0, map[],
                       map[2 := 2, 3 := 2], 0, [2, 3]);
    assert HolderSet(s, 1) == {2, 3} && HolderSet(s, 2) == {2, 3};
    assert s.log[0].term == 2 && s.log[1].term == 1;
  }

  lemma RisingOn(log: seq<LogEntry>, term: nat, entry: LogEntry)
    requires Rising(log, term) && entry.term == term
    ensures Rising(log + [entry], term)
  {
  }

  lemma RisingLater(log: seq<LogEntry>, term: nat, later: nat)
    requires Rising(log, term) && term <= later
    ensures Rising(log, later)
  {
  }

  /** Every rule of a node keeps the terms rising. */
  lemma RulesKeepTerms(s: NodeState, data: seq<Byte>, follower: NodeId, index: nat)
    requires TermsRise(s)
    ensures TermsRise(Campaigning(s)) && TermsRise(Voted(s).0) && TermsRise(Appended(s, data).0)
    ensures TermsRise(Acknowledged(s, follower, index)) && TermsRise(Applied(s).0)
  {
    RisingOn(s.log, s.term, LogEntry(s.term, |s.log| + 1, data));
    RisingLater(s.log, s.term, s.term + 1);
  }

  // ---------------------------------------------------------------- the cluster

  datatype Cluster = Cluster(nodes: map<NodeId, NodeState>, leader: Option<NodeId>)

  const MEMBERS: set<NodeId> := {1, 2, 3}

  function PeersOf(id: NodeId): seq<NodeId> { if id == 1 then [2, 3] else if id == 2 then [1, 3] else [1, 2] }

  function New3Node(): Cluster { Cluster(map id | id in MEMBERS :: NewNode(id, PeersOf(id)), None) }

  /** A node asked for its vote in `term`. */
  function Asked(s: NodeState, candidate: NodeId, term: nat): NodeState {
    if s.term < term || s.votedFor.None? then s.(term := term, votedFor := Some(candidate)) else s
  }

  predicate Grants(s: NodeState, term: nat) { s.term < term || s.votedFor.None? }

  function Voters(nodes: map<NodeId, NodeState>, id: NodeId, term: nat): set<NodeId> {
    set i | i in nodes && i != id && Grants(nodes[i], term)
  }

  /** The nodes after the candidate has asked all others but those in `left`. */
  function Polled(nodes: map<NodeId, NodeState>, id: NodeId, term: nat, left: set<NodeId>): map<NodeId, NodeState> {
    map i | i in nodes :: if i == id || i in left then nodes[i] else Asked(nodes[i], id, term)
  }

  function Elected(c: Cluster, id: NodeId): (Cluster, bool)
    requires id in c.nodes
  {
    var candidate := Campaigning(c.nodes[id]);
    var standing := c.nodes[id := candidate];
    var votes := 1 + |Voters(standing, id, candidate.term)|;
    var nodes := Polled(standing, id, candidate.term, {});
    if votes >= |nodes| / 2 + 1 then (Cluster(nodes[id := Leading(candidate)], Some(id)), true)
    else (Cluster(nodes, c.leader), false)
  }

  /** Asking one more node. */
  lemma PollStep(nodes: map<NodeId, NodeState>, id: NodeId, term: nat, left: set<NodeId>, i: NodeId)
    requires i in left && i in nodes
    ensures var now, next := Polled(nodes, id, term, left), Polled(nodes, id, term, left - {i});
            && i in now
            && next == (if i != id && Grants(now[i], term) then now[i := now[i].(term := term, votedFor := Some(id))] else now)
            && |Voters(nodes, id, term) - (left - {i})| ==
               |Voters(nodes, id, term) - left| + if i != id && Grants(now[i], term) then 1 else 0
  {
    var all, now := Voters(nodes, id, term), Polled(nodes, id, term, left);
    assert now[i] == nodes[i];
    if i != id && Grants(nodes[i], term) {
      assert all - (left - {i}) == (all - left) + {i};
    } else {
      assert all - (left - {i}) == all - left;
    }
  }

  function Received(s: NodeState, entry: LogEntry, index: nat): NodeState {
    if |s.log| < index then s.(log := s.log + [entry]) else s
  }

  function AcknowledgedBy(s: NodeState, followers: seq<NodeId>, index: nat): NodeState {
    if followers == [] then s
    else Acknowledged(AcknowledgedBy(s, followers[..|followers| - 1], index), followers[|followers| - 1], index)
  }

  /** All nodes but the leader have received the entry. */
  function Delivered(nodes: map<NodeId, NodeState>, id: NodeId, entry: LogEntry, index: nat, left: set<NodeId>): map<NodeId, NodeState> {
    map i | i in nodes :: if i == id || i in left then nodes[i] else Received(nodes[i], entry, index)
  }

  lemma DeliverStep(nodes: map<NodeId, NodeState>, id: NodeId, entry: LogEntry, index: nat, left: set<NodeId>, i: NodeId)
    requires i in left && i in nodes
    ensures var now, next := Delivered(nodes, id, entry, index, left), Delivered(nodes, id, entry, index, left - {i});
            && i in now
            && next == if i != id && |now[i].log| < index then now[i := now[i].(log := now[i].log + [entry])] else now
  {
    var now := Delivered(nodes, id, entry, index, left);
    assert now[i] == nodes[i];
  }

  /** The leader appends, the others receive, and the leader counts their acknowledgements in the
      order given. */
  function Replicated(c: Cluster, data: seq<Byte>, order: seq<NodeId>): (Cluster, nat)
    requires c.leader.Some? ==> c.leader.value in c.nodes && c.nodes[c.leader.value].role == Leader
  {
    if c.leader.None? then (c, 0)
    else
      var id := c.leader.value;
      var (leader, index) := Appended(c.nodes[id], data);
      var nodes := Delivered(c.nodes[id := leader], id, leader.log[index - 1], index, {});
      (Cluster(nodes[id := AcknowledgedBy(nodes[id], order, index)], c.leader), index)
  }

  function AppliedAll(c: Cluster): Cluster { c.(nodes := map i | i in c.nodes :: Applied(c.nodes[i]).0) }

  // ---------------------------------------------------------------- the lockstep invariant

  function PeerSet(id: NodeId): set<NodeId> { if id == 1 then {2, 3} else if id == 2 then {1, 3} else {1, 2} }

  /** All nodes share one log and one term, and a chosen leader leads. */
  ghost predicate Lockstep(c: Cluster, log: seq<LogEntry>, term: nat) {
    && c.nodes.Keys == MEMBERS && Rising(log, term)
    && (forall i :: i in c.nodes ==> InStep(c.nodes[i], i, log, term))
    && (c.leader.Some? ==> c.leader.value in MEMBERS && c.nodes[c.leader.value].role == Leader &&
                           c.nodes[c.leader.value].matchIndex.Keys == PeerSet(c.leader.value))
  }

  ghost predicate InStep(s: NodeState, id: NodeId, log: seq<LogEntry>, term: nat) {
    && s.id == id && s.peers == PeersOf(id) && s.log == log && s.term == term
    && s.lastApplied <= s.commitIndex <= |log| && s.matchIndex.Keys <= PeerSet(id)
  }

  lemma StartsInStep()
    ensures Lockstep(New3Node(), [], 0)
  {
  }

  lemma {:induction false} SetAllKeys(m: map<NodeId, nat>, ids: seq<NodeId>, x: nat)
    ensures SetAll(m, ids, x).Keys == m.Keys + set p | p in ids
  {
    if ids != [] {
      SetAllKeys(m, ids[..|ids| - 1], x);
      assert ids == ids[..|ids| - 1] + [ids[|ids| - 1]];
    }
  }

  lemma LeadingInStep(s: NodeState, id: NodeId, log: seq<LogEntry>, term: nat)
    requires InStep(s, id, log, term) && id in MEMBERS
    ensures InStep(Leading(s), id, log, term) && Leading(s).matchIndex.Keys == PeerSet(id)
  {
    SetAllKeys(s.matchIndex, PeersOf(id), 0);
    assert (set p | p in PeersOf(id)) == PeerSet(id);
  }

  lemma AllGrant(c: Cluster, id: NodeId, log: seq<LogEntry>, term: nat)
    requires Lockstep(c, log, term) && id in MEMBERS
    ensures |Voters(c.nodes[id := Campaigning(c.nodes[id])], id, term + 1)| == 2 && |c.nodes| == 3
  {
    var standing := c.nodes[id := Campaigning(c.nodes[id])];
    assert Voters(standing, id, term + 1) == PeerSet(id) by {
      forall i | i in PeerSet(id) ensures i in Voters(standing, id, term + 1) {
        assert InStep(c.nodes[i], i, log, term);
      }
    }
    assert c.nodes.Keys == {1, 2, 3};
  }

  lemma AskedInStep(s: NodeState, id: NodeId, log: seq<LogEntry>, term: nat, candidate: NodeId)
    requires InStep(s, id, log, term)
    ensures InStep(Asked(s, candidate, term + 1), id, log, term + 1)
    ensures InStep(Campaigning(s), id, log, term + 1)
  {
  }

  /** An election always succeeds, raises the term by one and leaves the logs alone. */
  lemma ElectionInStep(c: Cluster, id: NodeId, log: seq<LogEntry>, term: nat)
    requires Lockstep(c, log, term) && id in MEMBERS
    ensures var (d, won) := Elected(c, id); won && Lockstep(d, log, term + 1) && d.leader == Some(id)
  {
    AllGrant(c, id, log, term);
    RisingLater(log, term, term + 1);
    assert InStep(c.nodes[id], id, log, term);
    var (d, won) := Elected(c, id);
    assert |Polled(c.nodes[id := Campaigning(c.nodes[id])], id, term + 1, {})| == 3 by {
      assert Polled(c.nodes[id := Campaigning(c.nodes[id])], id, term + 1, {}).Keys == c.nodes.Keys;
    }
    forall i | i in d.nodes
      ensures InStep(d.nodes[i], i, log, term + 1) && (i == id ==> d.nodes[i].matchIndex.Keys == PeerSet(id))
    {
      ElectedNode(c.nodes[i], i, log, term, id);
    }
  }

  lemma ElectedNode(s: NodeState, i: NodeId, log: seq<LogEntry>, term: nat, id: NodeId)
    requires InStep(s, i, log, term) && i in MEMBERS
    ensures var t := if i == id then Leading(Campaigning(s)) else Asked(s, id, term + 1);
            InStep(t, i, log, term + 1) && (i == id ==> t.matchIndex.Keys == PeerSet(id))
  {
    AskedInStep(s, i, log, term, id);
    LeadingInStep(Campaigning(s), i, log, term + 1);
  }

  /** One acknowledgement of the newest entry is a majority of three. */
  lemma AcknowledgedInStep(s: NodeState, id: NodeId, log: seq<LogEntry>, term: nat, follower: NodeId)
    requires InStep(s, id, log, term) && s.role == Leader && id in MEMBERS && follower in PeerSet(id)
    requires log != [] && log[|log| - 1].term == term
    ensures var t := Acknowledged(s, follower, |log|);
            && InStep(t, id, log, term) && t.role == Leader && t.commitIndex == |log|
            && t.matchIndex.Keys == s.matchIndex.Keys + {follower}
  {
    var t := s.(matchIndex := s.matchIndex[follower := |log|], nextIndex := s.nextIndex[follower := |log| + 1]);
    HasHolder(t, follower, |log|);
  }

  lemma HasHolder(s: NodeState, f: NodeId, n: nat)
    requires f in s.matchIndex && s.matchIndex[f] >= n
    ensures Holders(s, n) >= 2
  {
    assert HolderSet(s, n) == {f} + (HolderSet(s, n) - {f});
  }

  lemma {:induction false} AcknowledgementsInStep(s: NodeState, id: NodeId, log: seq<LogEntry>, term: nat, order: seq<NodeId>)
    requires InStep(s, id, log, term) && s.role == Leader && id in MEMBERS
    requires s.matchIndex.Keys == PeerSet(id) && (forall f :: f in order ==> f in PeerSet(id))
    requires log != [] && log[|log| - 1].term == term
    ensures var t := AcknowledgedBy(s, order, |log|);
            && InStep(t, id, log, term) && t.role == Leader && t.matchIndex.Keys == PeerSet(id)
            && (order != [] ==> t.commitIndex == |log|)
  {
    if order != [] {
      AcknowledgementsInStep(s, id, log, term, order[..|order| - 1]);
      AcknowledgedInStep(AcknowledgedBy(s, order[..|order| - 1], |log|), id, log, term, order[|order| - 1]);
    }
  }

  /** The order in which the followers of `id` acknowledge. */
  predicate IsOrder(order: seq<NodeId>, id: NodeId) { order != [] && (set f | f in order) == PeerSet(id) }

  /** With a leader, replication extends every log by the same entry, which the leader commits. */
  lemma ReplicationInStep(c: Cluster, log: seq<LogEntry>, term: nat, data: seq<Byte>, order: seq<NodeId>)
    requires Lockstep(c, log, term) && c.leader.Some? && IsOrder(order, c.leader.value)
    ensures var (d, index) := Replicated(c, data, order);
            && index == |log| + 1 && d.leader == c.leader
            && Lockstep(d, log + [LogEntry(term, |log| + 1, data)], term)
            && d.nodes[c.leader.value].commitIndex == |log| + 1
  {
    var id, entry := c.leader.value, LogEntry(term, |log| + 1, data);
    assert InStep(c.nodes[id], id, log, term);
    RisingOn(log, term, entry);
    LeaderReplicates(c.nodes[id], id, log, term, data, order);
    var (d, index) := Replicated(c, data, order);
    forall i | i in d.nodes ensures InStep(d.nodes[i], i, log + [entry], term) {
      if i != id {
        assert InStep(c.nodes[i], i, log, term);
        ReceivedInStep(c.nodes[i], i, log, term, entry);
      }
    }
  }

  lemma LeaderReplicates(s: NodeState, id: NodeId, log: seq<LogEntry>, term: nat, data: seq<Byte>, order: seq<NodeId>)
    requires InStep(s, id, log, term) && s.role == Leader && id in MEMBERS && s.matchIndex.Keys == PeerSet(id)
    requires IsOrder(order, id)
    ensures var (leader, index) := Appended(s, data);
            var t := AcknowledgedBy(leader, order, index);
            && index == |log| + 1 && leader.log == log + [LogEntry(term, |log| + 1, data)]
            && InStep(t, id, leader.log, term) && t.role == Leader && t.matchIndex.Keys == PeerSet(id)
            && t.commitIndex == |log| + 1
  {
    assert forall f :: f in order ==> f in (set g | g in order);
    AcknowledgementsInStep(Appended(s, data).0, id, log + [LogEntry(term, |log| + 1, data)], term, order);
  }

  lemma ReceivedInStep(s: NodeState, i: NodeId, log: seq<LogEntry>, term: nat, entry: LogEntry)
    requires InStep(s, i, log, term)
    ensures InStep(Received(s, entry, |log| + 1), i, log + [entry], term)
  {
  }

  lemma ApplyInStep(c: Cluster, log: seq<LogEntry>, term: nat)
    requires Lockstep(c, log, term)
    ensures Lockstep(AppliedAll(c), log, term) && AppliedAll(c).leader == c.leader
    ensures forall i :: i in c.nodes ==>
              AppliedAll(c).nodes[i].commitIndex == c.nodes[i].commitIndex == AppliedAll(c).nodes[i].lastApplied
  {
    var d := AppliedAll(c);
    forall i | i in d.nodes ensures InStep(d.nodes[i], i, log, term) && d.nodes[i].lastApplied == c.nodes[i].commitIndex {
      assert InStep(c.nodes[i], i, log, term);
    }
  }

  // ---------------------------------------------------------------- whole runs

  datatype Op = Elect(id: NodeId) | Replicate(data: seq<Byte>, order: seq<NodeId>) | ApplyAll

  /** The operation can be asked of the cluster: a member stands, or the leader's followers answer. */
  predicate Possible(c: Cluster, op: Op) {
    match op
    case Elect(id) => id in MEMBERS
    case Replicate(_, order) => c.leader.Some? ==> IsOrder(order, c.leader.value)
    case ApplyAll => true
  }

  ghost predicate Sound(c: Cluster) { exists log, term :: Lockstep(c, log, term) }

  ghost function Step(c: Cluster, op: Op): Cluster
    requires Sound(c) && Possible(c, op)
  {
    match op
    case Elect(id) => Elected(c, id).0
    case Replicate(data, order) => Replicated(c, data, order).0
    case ApplyAll => AppliedAll(c)
  }

  ghost predicate IsRun(cs: seq<Cluster>, ops: seq<Op>) {
    && |cs| == |ops| + 1 && cs[0] == New3Node()
    && forall i :: 0 <= i < |ops| ==> Sound(cs[i]) && Possible(cs[i], ops[i]) && cs[i + 1] == Step(cs[i], ops[i])
  }

  /** The log all nodes share in a cluster in lockstep, and their term. */
  function SharedLog(c: Cluster): seq<LogEntry>
    requires 1 in c.nodes
  {
    c.nodes[1].log
  }

  function SharedTerm(c: Cluster): nat
    requires 1 in c.nodes
  {
    c.nodes[1].term
  }

  /** A sound cluster has its three members, and a chosen leader leads. */
  lemma SoundIs(c: Cluster)
    requires Sound(c)
    ensures c.nodes.Keys == MEMBERS
    ensures c.leader.Some? ==> c.leader.value in MEMBERS && c.nodes[c.leader.value].role == Leader
  {
  }

  lemma SoundElects(c: Cluster, id: NodeId)
    requires Sound(c) && id in c.nodes
    ensures Sound(Elected(c, id).0) && Elected(c, id).1 && Elected(c, id).0.leader == Some(id)
  {
    var log, term :| Lockstep(c, log, term);
    ElectionInStep(c, id, log, term);
  }

  lemma SoundReplicates(c: Cluster, data: seq<Byte>, order: seq<NodeId>)
    requires Sound(c) && c.leader.Some? && IsOrder(order, c.leader.value)
    ensures var (d, index) := Replicated(c, data, order);
            Sound(d) && c.leader.value in d.nodes && d.nodes[c.leader.value].commitIndex == index
  {
    var log, term :| Lockstep(c, log, term);
    ReplicationInStep(c, log, term, data, order);
  }

  lemma SoundApplies(c: Cluster)
    requires Sound(c)
    ensures Sound(AppliedAll(c))
  {
    var log, term :| Lockstep(c, log, term);
    ApplyInStep(c, log, term);
  }

  lemma StepInStep(c: Cluster, op: Op, log: seq<LogEntry>, term: nat)
    requires Lockstep(c, log, term) && Possible(c, op)
    ensures Sound(c)
    ensures var d := Step(c, op);
            && Lockstep(d, if op.Replicate? && c.leader.Some? then log + [LogEntry(term, |log| + 1, op.data)] else log,
                        if op.Elect? then term + 1 else term)
            && (op.Elect? ==> d.leader == Some(op.id)) && (!op.Elect? ==> d.leader == c.leader)
  {
    assert Sound(c);
    match op
    case Elect(id) => ElectionInStep(c, id, log, term);
    case Replicate(data, order) =>
      if c.leader.Some? {
        ReplicationInStep(c, log, term, data, order);
      }
    case ApplyAll => ApplyInStep(c, log, term);
  }

  lemma {:induction false} RunInStep(cs: seq<Cluster>, ops: seq<Op>, i: nat)
    requires IsRun(cs, ops) && i < |cs|
    ensures 1 in cs[i].nodes && Lockstep(cs[i], SharedLog(cs[i]), SharedTerm(cs[i]))
  {
    if i == 0 {
      StartsInStep();
      assert InStep(cs[0].nodes[1], 1, [], 0);
    } else {
      RunInStep(cs, ops, i - 1);
      var c, d, op := cs[i - 1], cs[i], ops[i - 1];
      var log, term := SharedLog(c), SharedTerm(c);
      StepInStep(c, op, log, term);
      var log', term' := if op.Replicate? && c.leader.Some? then log + [LogEntry(term, |log| + 1, op.data)] else log,
                         if op.Elect? then term + 1 else term;
      assert InStep(d.nodes[1], 1, log', term');
    }
  }

  lemma AllAlike(c: Cluster, log: seq<LogEntry>, term: nat)
    requires Lockstep(c, log, term)
    ensures forall a :: a in MEMBERS ==>
              a in c.nodes && c.nodes[a].log == log && c.nodes[a].term == term && c.nodes[a].commitIndex <= |log|
  {
    forall a | a in MEMBERS
      ensures a in c.nodes && c.nodes[a].log == log && c.nodes[a].term == term && c.nodes[a].commitIndex <= |log|
    {
      assert InStep(c.nodes[a], a, log, term);
    }
  }

  lemma StepGrows(c: Cluster, op: Op, d: Cluster)
    requires 1 in c.nodes && Lockstep(c, SharedLog(c), SharedTerm(c)) && Sound(c) && Possible(c, op) && d == Step(c, op)
    ensures 1 in d.nodes && SharedLog(c) <= SharedLog(d)
    ensures SharedTerm(d) == SharedTerm(c) + if op.Elect? then 1 else 0
    ensures op.Elect? ==> d.leader == Some(op.id)
  {
    var log, term := SharedLog(c), SharedTerm(c);
    StepInStep(c, op, log, term);
    var log', term' := if op.Replicate? && c.leader.Some? then log + [LogEntry(term, |log| + 1, op.data)] else log,
                       if op.Elect? then term + 1 else term;
    assert InStep(d.nodes[1], 1, log', term');
  }

  /** A step keeps the shared log as a prefix, and an election raises the term. */
  ghost predicate Grows(c: Cluster, op: Op, d: Cluster) {
    && 1 in c.nodes && 1 in d.nodes && SharedLog(c) <= SharedLog(d)
    && SharedTerm(d) == SharedTerm(c) + (if op.Elect? then 1 else 0)
    && (op.Elect? ==> d.leader == Some(op.id))
  }

  lemma RunStepsGrow(cs: seq<Cluster>, ops: seq<Op>, i: nat)
    requires IsRun(cs, ops) && i < |ops|
    ensures Grows(cs[i], ops[i], cs[i + 1])
  {
    RunInStep(cs, ops, i);
    StepGrows(cs[i], ops[i], cs[i + 1]);
  }

  lemma {:induction false} GrowsOn(cs: seq<Cluster>, ops: seq<Op>, i: nat, j: nat)
    requires |cs| == |ops| + 1 && i <= j < |cs| && 1 in cs[i].nodes
    requires forall k :: 0 <= k < |ops| ==> Grows(cs[k], ops[k], cs[k + 1])
    ensures 1 in cs[j].nodes
    ensures SharedLog(cs[i]) <= SharedLog(cs[j]) && SharedTerm(cs[i]) <= SharedTerm(cs[j])
    ensures i < j && ops[j - 1].Elect? ==>
              cs[j].leader == Some(ops[j - 1].id) && SharedTerm(cs[i]) < SharedTerm(cs[j])
    decreases j
  {
    if i < j {
      GrowsOn(cs, ops, i, j - 1);
      assert Grows(cs[j - 1], ops[j - 1], cs[j - 1 + 1]);
    }
  }

  lemma RunGrows(cs: seq<Cluster>, ops: seq<Op>, i: nat, j: nat)
    requires IsRun(cs, ops) && i <= j < |cs|
    ensures 1 in cs[i].nodes && 1 in cs[j].nodes
    ensures SharedLog(cs[i]) <= SharedLog(cs[j]) && SharedTerm(cs[i]) <= SharedTerm(cs[j])
    ensures i < j && ops[j - 1].Elect? ==>
              cs[j].leader == Some(ops[j - 1].id) && SharedTerm(cs[i]) < SharedTerm(cs[j])
  {
    RunInStep(cs, ops, i);
    forall k | 0 <= k < |ops| ensures Grows(cs[k], ops[k], cs[k + 1]) {
      RunStepsGrow(cs, ops, k);
    }
    GrowsOn(cs, ops, i, j);
  }

  /** Over any run from a fresh cluster all logs stay equal, logs only grow at the end, terms only
      rise, and what any node has committed is part of every later log. */
  lemma RunSafety(cs: seq<Cluster>, ops: seq<Op>, i: nat, j: nat, a: NodeId, b: NodeId)
    requires IsRun(cs, ops) && i <= j < |cs| && a in MEMBERS && b in MEMBERS
    ensures a in cs[i].nodes && b in cs[i].nodes && b in cs[j].nodes
    ensures cs[i].nodes[a].log == cs[i].nodes[b].log <= cs[j].nodes[b].log
    ensures cs[i].nodes[a].commitIndex <= |cs[i].nodes[a].log|
    ensures cs[i].nodes[a].log[..cs[i].nodes[a].commitIndex] <= cs[j].nodes[b].log
    ensures cs[i].nodes[a].term == cs[i].nodes[b].term <= cs[j].nodes[b].term
  {
    RunInStep(cs, ops, i);
    RunInStep(cs, ops, j);
    AllAlike(cs[i], SharedLog(cs[i]), SharedTerm(cs[i]));
    AllAlike(cs[j], SharedLog(cs[j]), SharedTerm(cs[j]));
    RunGrows(cs, ops, i, j);
  }

  /** An election wins and has a term above every earlier one. */
  lemma ElectionRaisesTerm(cs: seq<Cluster>, ops: seq<Op>, i: nat, j: nat, a: NodeId, b: NodeId)
    requires IsRun(cs, ops) && i <= j < |ops| && a in MEMBERS && b in MEMBERS && ops[j].Elect?
    ensures a in cs[i].nodes && b in cs[j + 1].nodes && cs[i].nodes[a].term < cs[j + 1].nodes[b].term
    ensures cs[j + 1].leader == Some(ops[j].id)
  {
    RunInStep(cs, ops, i);
    RunInStep(cs, ops, j + 1);
    AllAlike(cs[i], SharedLog(cs[i]), SharedTerm(cs[i]));
    AllAlike(cs[j + 1], SharedLog(cs[j + 1]), SharedTerm(cs[j + 1]));
    RunGrows(cs, ops, i, j + 1);
  }

  /** With a leader, a replicated entry is committed at once, and applying then hands it out. */
  lemma ReplicationCommits(cs: seq<Cluster>, ops: seq<Op>, i: nat)
    requires IsRun(cs, ops) && i < |ops| && ops[i].Replicate? && cs[i].leader.Some?
    ensures var id := cs[i].leader.value;
            && id in cs[i].nodes && id in cs[i + 1].nodes && cs[i + 1].leader == Some(id)
            && var s, t := cs[i].nodes[id], cs[i + 1].nodes[id];
               t.log == s.log + [LogEntry(s.term, |s.log| + 1, ops[i].data)] && t.commitIndex == |t.log|
  {
    RunInStep(cs, ops, i);
    RunStep(cs, ops, i);
    CommitsAtOnce(cs[i], ops[i], SharedLog(cs[i]), SharedTerm(cs[i]));
  }

  lemma RunStep(cs: seq<Cluster>, ops: seq<Op>, i: nat)
    requires IsRun(cs, ops) && i < |ops|
    ensures Sound(cs[i]) && Possible(cs[i], ops[i]) && cs[i + 1] == Step(cs[i], ops[i])
  {
  }

  lemma CommitsAtOnce(c: Cluster, op: Op, log: seq<LogEntry>, term: nat)
    requires Lockstep(c, log, term) && Sound(c) && Possible(c, op) && op.Replicate? && c.leader.Some?
    ensures var id, d := c.leader.value, Step(c, op);
            && id in c.nodes && id in d.nodes && d.leader == Some(id)
            && var s, t := c.nodes[id], d.nodes[id];
               t.log == s.log + [LogEntry(s.term, |s.log| + 1, op.data)] && t.commitIndex == |t.log|
  {
    AllAlike(c, log, term);
    ReplicationInStep(c, log, term, op.data, op.order);
    AllAlike(Step(c, op), log + [LogEntry(term, |log| + 1, op.data)], term);
  }
}
