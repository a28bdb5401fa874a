/** The Raft node and cluster objects. */
module RaftCode {
  import opened Wrappers
  import opened Bytes
  import opened RaftModel

  class RaftNode {
    const id: NodeId
    const peers: seq<NodeId>
    var role: Role
    var currentTerm: nat
    var votedFor: Option<NodeId>
    var log: seq<LogEntry>
    var commitIndex: nat
    var lastApplied: nat
    var nextIndex: map<NodeId, nat>
    var matchIndex: map<NodeId, nat>
    var votesReceived: nat

    function State(): NodeState
      reads this
    {
      NodeState(id, role, currentTerm, votedFor, log, commitIndex, lastApplied, nextIndex, matchIndex, votesReceived, peers)
    }

    constructor (id: NodeId, peers: seq<NodeId>)
      ensures State() == NewNode(id, peers)
    {
      this.id, this.peers := id, peers;
      role, currentTerm, votedFor, log := Follower, 0, None, [];
      commitIndex, lastApplied, nextIndex, matchIndex, votesReceived := 0, 0, map[], map[], 0;
    }

    method StartElection()
      modifies this
      ensures State() == Campaigning(old(State()))
    {
      role := Candidate;
      currentTerm := currentTerm + 1;
      votedFor := Some(id);
      votesReceived := 1;
    }

    method ReceiveVote() returns (won: bool)
      modifies this
      ensures (State(), won) == Voted(old(State()))
    {
      if role != Candidate {
        return false;
      }
      votesReceived := votesReceived + 1;
      var majority := (|peers| + 1) / 2 + 1;
      if votesReceived >= majority {
        BecomeLeader();
        return true;
      }
      won := false;
    }

    method BecomeLeader()
      modifies this
      ensures State() == Leading(old(State()))
    {
      role := Leader;
      var next := |log| + 1;
      for i := 0 to |peers|
        invariant State() == old(State()).(role := Leader, nextIndex := nextIndex, matchIndex := matchIndex)
        invariant nextIndex == SetAll(old(nextIndex), peers[..i], next) && matchIndex == SetAll(old(matchIndex), peers[..i], 0)
      {
        assert peers[..i + 1][..i] == peers[..i];
        nextIndex := nextIndex[peers[i] := next];
        matchIndex := matchIndex[peers[i] := 0];
      }
      assert peers[..|peers|] == peers;
    }

    method AppendEntry(data: seq<Byte>) returns (index: nat)
      modifies this
      ensures (State(), index) == Appended(old(State()), data)
    {
      if role != Leader {
        return 0;
      }
      index := |log| + 1;
      log := log + [LogEntry(currentTerm, index, data)];
    }

    /** Counts an acknowledgement and commits the largest index the commit rule allows. */
    method Acknowledge(follower: NodeId, index: nat)
      modifies this
      ensures State() == Acknowledged(old(State()), follower, index)
      ensures role == Leader && TermsRise(State()) ==>
                (var was := State().(commitIndex := old(commitIndex));
                 && (commitIndex == old(commitIndex) || Committable(was, commitIndex))
                 && forall n: nat :: Committable(was, n) ==> n <= commitIndex)
    {
      if role != Leader {
        return;
      }
      matchIndex := matchIndex[follower := index];
      nextIndex := nextIndex[follower := index + 1];
      ghost var s := State();
      if TermsRise(s) {
        CommitRule(s, |s.log|);
      }
      var majority := (|peers| + 1) / 2 + 1;
      var n: nat := |log|;
      while n > commitIndex
        invariant n <= |log| && State() == s && CommitFrom(s, |s.log|) == CommitFrom(s, n)
        decreases n
      {
        var count := 1 + |set f | f in matchIndex && matchIndex[f] >= n|;
        assert (set f | f in matchIndex && matchIndex[f] >= n) == HolderSet(s, n);
        if count >= majority {
          if log[n - 1].term == currentTerm {
            commitIndex := n;
          }
          return;
        }
        n := n - 1;
      }
    }

    method ApplyCommitted() returns (toApply: seq<LogEntry>)
      modifies this
      ensures (State(), toApply) == Applied(old(State()))
    {
      toApply := [];
      while lastApplied < commitIndex
        invariant State() == old(State()).(lastApplied := lastApplied)
        invariant old(lastApplied) <= lastApplied && (old(lastApplied) < commitIndex ==> lastApplied <= commitIndex)
        invariant old(lastApplied) >= commitIndex ==> lastApplied == old(lastApplied)
        invariant toApply == if old(lastApplied) >= |log| || lastApplied == old(lastApplied) then []
                             else log[old(lastApplied)..if lastApplied <= |log| then lastApplied else |log|]
      {
        lastApplied := lastApplied + 1;
        if lastApplied - 1 < |log| {
          toApply := toApply + [log[lastApplied - 1]];
        }
      }
    }
  }

  /** The cluster owns its nodes by value; what it asks of them are the rules above. */
  class RaftCluster {
    var nodes: map<NodeId, NodeState>
    var leader: Option<NodeId>

    function State(): Cluster
      reads this
    {
      Cluster(nodes, leader)
    }

    /** The members are in lockstep. */
    ghost predicate Valid()
      reads this
    {
      RaftModel.Sound(State())
    }

    constructor ()
      ensures Valid() && State() == New3Node()
    {
      nodes := map id | id in MEMBERS :: NewNode(id, PeersOf(id));
      leader := None;
      new;
      StartsInStep();
    }

    /** Asks the members other than the candidate for their votes. */
    method CollectVotes(candidate: NodeId, term: nat) returns (votes: nat)
      requires candidate in nodes
      modifies this`nodes
      ensures votes == 1 + |Voters(old(nodes), candidate, term)|
      ensures nodes == Polled(old(nodes), candidate, term, {})
    {
      votes := 1;
      ghost var was := nodes;
      var left := nodes.Keys;
      assert Voters(was, candidate, term) - left == {};
      assert nodes == Polled(was, candidate, term, left);
      while left != {}
        invariant left <= was.Keys && nodes == Polled(was, candidate, term, left)
        invariant votes == 1 + |Voters(was, candidate, term) - left|
        decreases left
      {
        var i :| i in left;
        PollStep(was, candidate, term, left, i);
        left := left - {i};
        if i != candidate {
          if nodes[i].term < term || nodes[i].votedFor.None? {
            votes := votes + 1;
            nodes := nodes[i := nodes[i].(term := term, votedFor := Some(candidate))];
          }
        }
      }
      assert Voters(was, candidate, term) - {} == Voters(was, candidate, term);
    }

    method ElectLeader(candidate: NodeId) returns (won: bool)
      requires Valid() && candidate in nodes
      modifies this
      ensures (State(), won) == Elected(old(State()), candidate)
      ensures Valid() && won && leader == Some(candidate)
    {
      SoundElects(State(), candidate);
      var standing := Campaigning(nodes[candidate]);
      nodes := nodes[candidate := standing];
      var votes := CollectVotes(candidate, standing.term);
      won := votes >= |nodes| / 2 + 1;
      if won {
        nodes := nodes[candidate := Leading(nodes[candidate])];
        leader := Some(candidate);
      }
    }

    /** Appends an entry everywhere and lets the followers acknowledge it, in some order. */
    method ReplicateEntry(data: seq<Byte>) returns (index: nat, ghost order: seq<NodeId>)
      requires Valid()
      modifies this`nodes
      ensures leader.Some? ==> leader.value in old(nodes) && old(nodes)[leader.value].role == Leader && IsOrder(order, leader.value)
      ensures State() == Replicated(old(State()), data, order).0 && index == Replicated(old(State()), data, order).1
      ensures Valid() && (leader.Some? ==> leader.value in nodes && nodes[leader.value].commitIndex == index)
    {
      order := [];
      index := 0;
      SoundIs(State());
      if leader.None? {
        return;
      }
      ghost var was := State();
      index, order := Spread(leader.value, data);
      SoundReplicates(was, data, order);
    }

    /** The three steps of a replication: append, distribute, acknowledge. */
    method Spread(id: NodeId, data: seq<Byte>) returns (index: nat, ghost order: seq<NodeId>)
      requires nodes.Keys == MEMBERS && id in MEMBERS && nodes[id].role == Leader
      modifies this`nodes
      ensures IsOrder(order, id)
      ensures (Cluster(nodes, Some(id)), index) == Replicated(Cluster(old(nodes), Some(id)), data, order)
    {
      var (appended, at) := Appended(nodes[id], data);
      index := at;
      nodes := nodes[id := appended];
      Distribute(id, appended.log[index - 1], index);
      assert nodes.Keys == MEMBERS;
      order := CollectAcknowledgements(id, index);
    }

    method Distribute(id: NodeId, entry: LogEntry, index: nat)
      requires id in nodes
      modifies this`nodes
      ensures nodes == Delivered(old(nodes), id, entry, index, {})
    {
      ghost var was := nodes;
      var left := nodes.Keys;
      assert nodes == Delivered(was, id, entry, index, left);
      while left != {}
        invariant left <= was.Keys && nodes == Delivered(was, id, entry, index, left)
        decreases left
      {
        var i :| i in left;
        DeliverStep(was, id, entry, index, left, i);
        left := left - {i};
        if i != id && |nodes[i].log| < index {
          nodes := nodes[i := nodes[i].(log := nodes[i].log + [entry])];
        }
      }
    }

    /** The followers that have acknowledged, and those that are left. */
    ghost predicate Taking(order: seq<NodeId>, left: set<NodeId>, id: NodeId) {
      (set f | f in order) + left == PeerSet(id) && (order == [] ==> left == PeerSet(id))
    }

    lemma TakeOne(order: seq<NodeId>, left: set<NodeId>, id: NodeId, f: NodeId)
      requires Taking(order, left, id) && f in left
      ensures Taking(order + [f], left - {f}, id)
    {
      assert (set g | g in order + [f]) == (set g | g in order) + {f};
    }

    method CollectAcknowledgements(id: NodeId, index: nat) returns (ghost order: seq<NodeId>)
      requires nodes.Keys == MEMBERS && id in MEMBERS
      modifies this`nodes
      ensures IsOrder(order, id)
      ensures nodes == old(nodes)[id := AcknowledgedBy(old(nodes)[id], order, index)]
    {
      order := [];
      var left := nodes.Keys - {id};
      assert left == PeerSet(id);
      while left != {}
        invariant Taking(order, left, id)
        invariant nodes == old(nodes)[id := AcknowledgedBy(old(nodes)[id], order, index)]
        decreases left
      {
        var f :| f in left;
        TakeOne(order, left, id, f);
        left := left - {f};
        assert (order + [f])[..|order|] == order;
        nodes := nodes[id := Acknowledged(nodes[id], f, index)];
        order := order + [f];
      }
    }

    method ApplyToAll()
      requires Valid()
      modifies this`nodes
      ensures State() == AppliedAll(old(State())) && Valid()
    {
      SoundApplies(State());
      nodes := map i | i in nodes :: Applied(nodes[i]).0;
    }
  }
}
