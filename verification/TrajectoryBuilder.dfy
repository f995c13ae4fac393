/**
 The loop of `build_atif_trajectory` (benchmarks/harbor/libragent_agent.py:483-641) over step
 objects: results are appended to steps already in the list. It computes `Build`.
 */
module TrajectoryBuilder {
  import opened Wrappers
  import opened Trajectory

  class StepNode {
    const stepId: nat
    const source: Source
    const calls: seq<string>
    var observation: seq<Result>

    constructor (stepId: nat, source: Source, calls: seq<string>)
      ensures this.stepId == stepId && this.source == source && this.calls == calls && observation == []
    {
      this.stepId, this.source, this.calls := stepId, source, calls;
      observation := [];
    }

    function Value(): Step
      reads this
    {
      Step(stepId, source, calls, observation)
    }

    /** `_append_observation_result`, and the `extend` of lines 542-546. */
    method Add(results: seq<Result>)
      modifies this
      ensures Value() == old(Value()).(observation := old(observation) + results)
    {
      observation := observation + results;
    }
  }

  function Values(nodes: seq<StepNode>): (steps: seq<Step>)
    reads nodes
    ensures |steps| == |nodes|
    ensures forall k :: 0 <= k < |nodes| ==> steps[k] == nodes[k].Value()
  {
    if nodes == [] then [] else Values(nodes[..|nodes| - 1]) + [nodes[|nodes| - 1].Value()]
  }

  predicate Distinct(nodes: seq<StepNode>) {
    forall j, k :: 0 <= j < k < |nodes| ==> nodes[j] != nodes[k]
  }

  /** `_find_agent_step_for_tool_call`: a search from the end. */
  method FindAgentStepForToolCall(nodes: seq<StepNode>, id: string) returns (k: int)
    ensures match FindStep(Values(nodes), |nodes|, id) case Some(j) => k == j case None => k == -1
  {
    k := |nodes| - 1;
    while k >= 0
      invariant -1 <= k < |nodes|
      invariant FindStep(Values(nodes), k + 1, id) == FindStep(Values(nodes), |nodes|, id)
    {
      if nodes[k].source.FromAgent? && id in nodes[k].calls {
        return;
      }
      k := k - 1;
    }
  }

  method FindLastAgent(nodes: seq<StepNode>) returns (k: int)
    ensures match FindAgent(Values(nodes), |nodes|) case Some(j) => k == j case None => k == -1
  {
    k := |nodes| - 1;
    while k >= 0
      invariant -1 <= k < |nodes|
      invariant FindAgent(Values(nodes), k + 1) == FindAgent(Values(nodes), |nodes|)
    {
      if nodes[k].source.FromAgent? {
        return;
      }
      k := k - 1;
    }
  }

  /** Appending to the step at position `k` changes that step alone. */
  method AppendAt(nodes: seq<StepNode>, k: nat, results: seq<Result>)
    requires k < |nodes| && Distinct(nodes)
    modifies nodes[k]
    ensures Values(nodes) == Append(old(Values(nodes)), k, results)
  {
    nodes[k].Add(results);
    assert forall j :: 0 <= j < |nodes| && j != k ==> nodes[j] != nodes[k];
  }

  /** `_attach_tool_observation`. */
  method AttachToolObservation(nodes: seq<StepNode>, m: Message, pending: seq<Entry>) returns (pending': seq<Entry>)
    requires Distinct(nodes) && IsTool(m)
    modifies nodes
    ensures State(Values(nodes), pending') == Attach(State(old(Values(nodes)), pending), m)
  {
    pending' := pending;
    match SourceId(m)
    case Some(id) =>
      var k := FindAgentStepForToolCall(nodes, id);
      if k >= 0 {
        AppendAt(nodes, k, [ResultOf(m)]);
      } else {
        pending' := PutPending(pending, id, ResultOf(m));
      }
    case None =>
      var k := FindLastAgent(nodes);
      if k >= 0 {
        AppendAt(nodes, k, [ResultOf(m)]);
      }
  }

  /** `_consume_pending_observations`: pop each declared id in turn, then add what was found. */
  method ConsumePendingObservations(node: StepNode, pending: seq<Entry>) returns (pending': seq<Entry>)
    modifies node
    ensures pending' == Left(pending, node.calls)
    ensures node.Value() == old(node.Value()).(observation := old(node.observation) + Taken(pending, node.calls))
  {
    pending' := pending;
    var results: seq<Result> := [];
    for k := 0 to |node.calls|
      invariant Left(pending', node.calls[k..]) == Left(pending, node.calls)
      invariant results + Taken(pending', node.calls[k..]) == Taken(pending, node.calls)
    {
      assert node.calls[k..][0] == node.calls[k] && node.calls[k..][1..] == node.calls[k + 1..];
      results := results + PendingFor(pending', node.calls[k]);
      pending' := WithoutPending(pending', node.calls[k]);
    }
    if results != [] {
      node.Add(results);
    }
  }

  /** `steps.append(step)`. */
  function WithNode(nodes: seq<StepNode>, node: StepNode): (all: seq<StepNode>)
    reads nodes, node
    requires Distinct(nodes) && node !in nodes
    ensures nodes <= all && |all| == |nodes| + 1 && all[|nodes|] == node
    ensures Distinct(all) && Values(all) == Values(nodes) + [node.Value()]
  {
    assert (nodes + [node])[..|nodes + [node]| - 1] == nodes;
    nodes + [node]
  }

  /** One round of the loop over the messages, lines 561-611. */
  method AddMessage(nodes: seq<StepNode>, pending: seq<Entry>, m: Message)
    returns (nodes': seq<StepNode>, pending': seq<Entry>)
    requires Distinct(nodes)
    modifies nodes
    ensures State(Values(nodes'), pending') == Trajectory.Add(State(old(Values(nodes)), pending), m)
    ensures nodes <= nodes' && Distinct(nodes')
    ensures forall k :: |nodes| <= k < |nodes'| ==> fresh(nodes'[k])
  {
    nodes', pending' := nodes, pending;
    if Speaks(m) {
      var node := new StepNode(|nodes| + 1, SourceOf(m), DeclaredIds(m));
      pending' := ConsumePendingObservations(node, pending);
      assert [] + Taken(pending, node.calls) == Taken(pending, node.calls);
      nodes' := WithNode(nodes, node);
    } else if IsTool(m) {
      pending' := AttachToolObservation(nodes, m, pending);
    }
  }

  /** A new agent step without calls, holding `results`. */
  method AppendAgentStep(nodes: seq<StepNode>, results: seq<Result>) returns (nodes': seq<StepNode>)
    requires Distinct(nodes)
    ensures Values(nodes') == Values(nodes) + [Step(|nodes| + 1, FromAgent, [], results)]
    ensures nodes <= nodes' && |nodes'| == |nodes| + 1 && Distinct(nodes') && fresh(nodes'[|nodes|])
  {
    var node := new StepNode(|nodes| + 1, FromAgent, []);
    node.Add(results);
    assert [] + results == results;
    nodes' := WithNode(nodes, node);
  }

  /** The steps once `results` have gone to the last agent step, or to a new one. */
  function Hosted(steps: seq<Step>, results: seq<Result>): (hosted: seq<Step>)
    ensures hosted != []
  {
    match FindAgent(steps, |steps|)
    case Some(k) => Append(steps, k, results)
    case None => steps + [Step(|steps| + 1, FromAgent, [], results)]
  }

  /** Lines 621-632. */
  method HostOrphans(nodes: seq<StepNode>, results: seq<Result>) returns (nodes': seq<StepNode>)
    requires Distinct(nodes)
    modifies nodes
    ensures Values(nodes') == Hosted(old(Values(nodes)), results)
    ensures nodes <= nodes' && Distinct(nodes')
    ensures forall k :: |nodes| <= k < |nodes'| ==> fresh(nodes'[k])
  {
    nodes' := nodes;
    var k := FindLastAgent(nodes);
    if k >= 0 {
      AppendAt(nodes, k, results);
    } else {
      nodes' := AppendAgentStep(nodes, results);
    }
  }

  lemma CloseHosts(steps: seq<Step>, pending: seq<Entry>)
    requires pending != []
    ensures Close(State(steps, pending)) == Hosted(steps, Orphans(pending))
  {
  }

  lemma CloseWithoutOrphans(steps: seq<Step>)
    ensures Close(State(steps, [])) == if steps == [] then [Step(1, FromAgent, [], [])] else steps
  {
  }

  /** Lines 613-641: the orphans, and the step of an empty trajectory. */
  method CloseTrajectory(nodes: seq<StepNode>, pending: seq<Entry>) returns (nodes': seq<StepNode>)
    requires Distinct(nodes)
    modifies nodes
    ensures Values(nodes') == Close(State(old(Values(nodes)), pending))
    ensures nodes <= nodes' && Distinct(nodes')
    ensures forall k :: |nodes| <= k < |nodes'| ==> fresh(nodes'[k])
  {
    nodes' := nodes;
    if pending != [] {
      CloseHosts(Values(nodes), pending);
      nodes' := HostOrphans(nodes, Orphans(pending));
    } else {
      CloseWithoutOrphans(Values(nodes));
    }
    if nodes' == [] {
      nodes' := AppendAgentStep(nodes, []);
    }
  }

  method BuildTrajectory(messages: seq<Message>) returns (nodes: seq<StepNode>)
    ensures Values(nodes) == Build(messages)
    ensures Distinct(nodes) && forall k :: 0 <= k < |nodes| ==> fresh(nodes[k])
  {
    nodes := [];
    var pending: seq<Entry> := [];
    for i := 0 to |messages|
      invariant State(Values(nodes), pending) == Process(messages[..i])
      invariant Distinct(nodes) && forall k :: 0 <= k < |nodes| ==> fresh(nodes[k])
    {
      assert messages[..i + 1][..i] == messages[..i];
      nodes, pending := AddMessage(nodes, pending, messages[i]);
    }
    assert messages[..|messages|] == messages;
    nodes := CloseTrajectory(nodes, pending);
  }
}
