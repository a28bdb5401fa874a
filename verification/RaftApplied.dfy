/** What the nodes hand out to be applied, over whole runs of the cluster. */
module RaftApplied {
  import opened Wrappers
  import opened Bytes
  import opened RaftModel

  /** The entries a node has handed out in the first `i` steps of a run, in the order of the steps. */
  ghost function HandedOut(cs: seq<Cluster>, ops: seq<Op>, i: nat, a: NodeId): seq<LogEntry>
    requires |cs| == |ops| + 1 && i < |cs| && forall k :: 0 <= k < i ==> a in cs[k].nodes
  {
    if i == 0 then []
    else HandedOut(cs, ops, i - 1, a) + if ops[i - 1].ApplyAll? then Applied(cs[i - 1].nodes[a]).1 else []
  }

  lemma ElectionHandsOutNothing(c: Cluster, id: NodeId, a: NodeId)
    requires id in c.nodes && a in c.nodes
    ensures var d := Elected(c, id).0; a in d.nodes && d.nodes[a].lastApplied == c.nodes[a].lastApplied
  {
  }

  lemma {:induction false} AcknowledgedAppliesNothing(s: NodeState, order: seq<NodeId>, index: nat)
    ensures AcknowledgedBy(s, order, index).lastApplied == s.lastApplied
  {
    if order != [] {
      AcknowledgedAppliesNothing(s, order[..|order| - 1], index);
    }
  }

  lemma ReplicationHandsOutNothing(c: Cluster, data: seq<Byte>, order: seq<NodeId>, a: NodeId)
    requires c.leader.Some? && c.leader.value in c.nodes && c.nodes[c.leader.value].role == Leader && a in c.nodes
    ensures var d := Replicated(c, data, order).0; a in d.nodes && d.nodes[a].lastApplied == c.nodes[a].lastApplied
  {
    var id := c.leader.value;
    var (leader, index) := Appended(c.nodes[id], data);
    AcknowledgedAppliesNothing(Delivered(c.nodes[id := leader], id, leader.log[index - 1], index, {})[id], order, index);
  }

  ghost predicate UpTo(c: Cluster, a: NodeId, out: seq<LogEntry>) {
    a in c.nodes && c.nodes[a].lastApplied <= |c.nodes[a].log| && out == c.nodes[a].log[..c.nodes[a].lastApplied]
  }

  /** A log that has only grown still starts with what has been handed out. */
  lemma StillUpTo(c: Cluster, d: Cluster, a: NodeId, out: seq<LogEntry>)
    requires UpTo(c, a, out) && a in d.nodes && d.nodes[a].lastApplied == c.nodes[a].lastApplied
    requires c.nodes[a].log <= d.nodes[a].log
    ensures UpTo(d, a, out)
  {
  }

  lemma ElectHandsOut(c: Cluster, id: NodeId, log: seq<LogEntry>, term: nat, a: NodeId, out: seq<LogEntry>)
    requires Lockstep(c, log, term) && id in MEMBERS && a in MEMBERS && UpTo(c, a, out)
    ensures UpTo(Elected(c, id).0, a, out)
  {
    ElectionInStep(c, id, log, term);
    ElectionHandsOutNothing(c, id, a);
    LogsAre(c, log, term, a);
    LogsAre(Elected(c, id).0, log, term + 1, a);
    StillUpTo(c, Elected(c, id).0, a, out);
  }

  lemma LogsAre(c: Cluster, log: seq<LogEntry>, term: nat, a: NodeId)
    requires Lockstep(c, log, term) && a in MEMBERS
    ensures a in c.nodes && c.nodes[a].log == log && c.nodes[a].lastApplied <= c.nodes[a].commitIndex <= |log|
  {
    assert InStep(c.nodes[a], a, log, term);
  }

  lemma ReplicateHandsOut(c: Cluster, data: seq<Byte>, order: seq<NodeId>, log: seq<LogEntry>, term: nat, a: NodeId,
                          out: seq<LogEntry>)
    requires Lockstep(c, log, term) && c.leader.Some? && IsOrder(order, c.leader.value) && a in MEMBERS && UpTo(c, a, out)
    ensures UpTo(Replicated(c, data, order).0, a, out)
  {
    ReplicationInStep(c, log, term, data, order);
    ReplicationHandsOutNothing(c, data, order, a);
    LogsAre(c, log, term, a);
    LogsAre(Replicated(c, data, order).0, log + [LogEntry(term, |log| + 1, data)], term, a);
    StillUpTo(c, Replicated(c, data, order).0, a, out);
  }

  lemma ApplyHandsOut(c: Cluster, log: seq<LogEntry>, term: nat, a: NodeId, out: seq<LogEntry>)
    requires Lockstep(c, log, term) && a in MEMBERS && UpTo(c, a, out)
    ensures UpTo(AppliedAll(c), a, out + Applied(c.nodes[a]).1)
    ensures AppliedAll(c).nodes[a].lastApplied == AppliedAll(c).nodes[a].commitIndex
  {
    LogsAre(c, log, term, a);
    var s := c.nodes[a];
    assert log[..s.lastApplied] + log[s.lastApplied..s.commitIndex] == log[..s.commitIndex];
  }

  lemma StepHandsOut(c: Cluster, op: Op, log: seq<LogEntry>, term: nat, a: NodeId, out: seq<LogEntry>)
    requires Lockstep(c, log, term) && Possible(c, op) && Sound(c) && a in MEMBERS && UpTo(c, a, out)
    ensures UpTo(Step(c, op), a, out + if op.ApplyAll? then Applied(c.nodes[a]).1 else [])
    ensures op.ApplyAll? ==> Step(c, op).nodes[a].lastApplied == Step(c, op).nodes[a].commitIndex
  {
    assert out + [] == out;
    match op
    case Elect(id) => ElectHandsOut(c, id, log, term, a, out);
    case Replicate(data, order) =>
      if c.leader.Some? {
        ReplicateHandsOut(c, data, order, log, term, a, out);
      }
    case ApplyAll => ApplyHandsOut(c, log, term, a, out);
  }

  /** Over any run from a fresh cluster, what a node has handed out is the log up to its last applied
      entry: every entry once and in order. After the last step of applying this is all that is
      committed. */
  lemma {:induction false} HandedOutExact(cs: seq<Cluster>, ops: seq<Op>, i: nat, a: NodeId)
    requires IsRun(cs, ops) && i < |cs| && a in MEMBERS
    ensures forall k :: 0 <= k <= i ==> a in cs[k].nodes
    ensures UpTo(cs[i], a, HandedOut(cs, ops, i, a))
    ensures i > 0 && ops[i - 1].ApplyAll? ==>
              cs[i].nodes[a].commitIndex <= |cs[i].nodes[a].log|
              && HandedOut(cs, ops, i, a) == cs[i].nodes[a].log[..cs[i].nodes[a].commitIndex]
  {
    if i > 0 {
      HandedOutExact(cs, ops, i - 1, a);
      RunInStep(cs, ops, i - 1);
      var c := cs[i - 1];
      StepHandsOut(c, ops[i - 1], SharedLog(c), SharedTerm(c), a, HandedOut(cs, ops, i - 1, a));
    }
  }
}
