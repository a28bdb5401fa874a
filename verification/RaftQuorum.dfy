/** Majorities, votes and what an election leaves with each node. */
module RaftQuorum {
  import opened Wrappers
  import opened Bytes
  import opened RaftModel

  /** A majority is the smallest number of nodes of which no two groups can be disjoint. */
  lemma MajorityExact(peers: nat)
    ensures Majority(peers) <= peers + 1
    ensures 2 * Majority(peers) > peers + 1 && 2 * (Majority(peers) - 1) <= peers + 1
  {
  }

  /** So two majorities of one cluster share a node. */
  lemma QuorumsMeet(all: set<NodeId>, a: set<NodeId>, b: set<NodeId>, peers: nat)
    requires |all| == peers + 1 && a <= all && b <= all && |a| >= Majority(peers) && |b| >= Majority(peers)
    ensures a * b != {}
  {
    if a * b == {} {
      assert |a + b| == |a| + |b|;
      Fits(a + b, all);
    }
  }

  lemma {:induction false} Fits(a: set<NodeId>, all: set<NodeId>)
    requires a <= all
    ensures |a| <= |all|
    decreases |a|
  {
    if a != {} {
      var x :| x in a;
      Fits(a - {x}, all - {x});
    }
  }

  /** The node after so many votes have been granted to it. */
  function VotedTimes(s: NodeState, n: nat): NodeState { if n == 0 then s else Voted(VotedTimes(s, n - 1)).0 }

  /** The votes with which a candidate leads, its own among them. They are counted when a vote comes in,
      so a node without peers needs one besides its own. */
  function Enough(peers: nat): nat { if peers == 0 then 2 else Majority(peers) }

  /** A node that stands for election leads as soon as it has enough votes, and not before; votes beyond
      that change nothing. */
  lemma {:induction false} VotesNeeded(s: NodeState, n: nat)
    ensures var t, enough := VotedTimes(Campaigning(s), n), Enough(|s.peers|);
            && t.peers == s.peers && t.term == s.term + 1 && t.votedFor == Some(s.id)
            && t.role == (if 1 + n >= enough then Leader else Candidate)
            && t.votes == (if 1 + n <= enough then 1 + n else enough)
  {
    if n > 0 {
      VotesNeeded(s, n - 1);
    }
  }

  lemma {:induction false} SetAllExact(m: map<NodeId, nat>, ids: seq<NodeId>, x: nat, p: NodeId)
    ensures p in SetAll(m, ids, x) <==> p in m || p in ids
    ensures p in SetAll(m, ids, x) ==> SetAll(m, ids, x)[p] == if p in ids then x else m[p]
  {
    if ids != [] {
      SetAllExact(m, ids[..|ids| - 1], x, p);
      assert ids == ids[..|ids| - 1] + [ids[|ids| - 1]];
    }
  }

  /** A new leader takes every peer to hold nothing, and sends it the entry after its own last one next. */
  lemma LeaderStartsOver(s: NodeState, p: NodeId)
    requires p in s.peers
    ensures var t := Leading(s);
            && t.role == Leader && p in t.matchIndex && t.matchIndex[p] == 0
            && p in t.nextIndex && t.nextIndex[p] == |s.log| + 1
            && t.log == s.log && t.term == s.term && t.commitIndex == s.commitIndex
  {
    SetAllExact(s.matchIndex, s.peers, 0, p);
    SetAllExact(s.nextIndex, s.peers, |s.log| + 1, p);
  }

  /** A leader sends next what follows the entry last acknowledged. */
  lemma AcknowledgedNext(s: NodeState, follower: NodeId, index: nat)
    requires s.role == Leader
    ensures var t := Acknowledged(s, follower, index);
            && t.matchIndex == s.matchIndex[follower := index] && t.nextIndex == s.nextIndex[follower := index + 1]
            && t.log == s.log && t.term == s.term && t.lastApplied == s.lastApplied
            && s.commitIndex <= t.commitIndex
  {
    var t := s.(matchIndex := s.matchIndex[follower := index], nextIndex := s.nextIndex[follower := index + 1]);
    CommitsForward(t, |t.log|);
  }

  lemma {:induction false} CommitsForward(s: NodeState, n: nat)
    requires n <= |s.log|
    ensures s.commitIndex <= CommitFrom(s, n)
  {
    if n > s.commitIndex && Holders(s, n) < Majority(|s.peers|) {
      CommitsForward(s, n - 1);
    }
  }

  /** In a cluster in lockstep an election leaves every node with the new term and its vote given to the
      winner, who leads; the others keep their roles. */
  lemma ElectionVotes(c: Cluster, id: NodeId, log: seq<LogEntry>, term: nat, a: NodeId)
    requires Lockstep(c, log, term) && id in MEMBERS && a in MEMBERS
    ensures var d := Elected(c, id).0;
            && a in d.nodes && d.nodes[a].votedFor == Some(id) && d.nodes[a].term == term + 1
            && d.nodes[a].role == if a == id then Leader else c.nodes[a].role
  {
    AllGrant(c, id, log, term);
    assert InStep(c.nodes[id], id, log, term);
    assert InStep(c.nodes[a], a, log, term);
    PolledAll(c.nodes[id := Campaigning(c.nodes[id])], id, term + 1);
  }

  lemma PolledAll(nodes: map<NodeId, NodeState>, id: NodeId, term: nat)
    ensures |Polled(nodes, id, term, {})| == |nodes|
    ensures forall i :: i in nodes ==>
              && i in Polled(nodes, id, term, {})
              && Polled(nodes, id, term, {})[i] == if i == id then nodes[i] else Asked(nodes[i], id, term)
  {
    assert Polled(nodes, id, term, {}).Keys == nodes.Keys;
  }
}
