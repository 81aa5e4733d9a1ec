/**
 * scripts/controller.js: its own copy of the score, the in-place
 * `tickState` update, the filter that collects the safe nodes and the
 * uniform choice of a proposer among them. Whether a node is safe is
 * decided by the deployed contract, which is not part of this model, so it
 * enters as the function `isSafe`.
 */
module Controller {
  import opened Metrics
  import opened Outcomes
  import NetworkMonitor

  /** `computeScore(s)`: the same weighted formula as the monitor's score. */
  function ComputeScore(s: Metrics): (score: int)
    ensures 0 <= score <= 100
  {
    var uptimeScore := s.uptime;
    var latencyNormalized := RMin(200.0, s.latency);
    var latencyScore := 100.0 - (latencyNormalized / 200.0) * 100.0;
    var accuracyScore := s.accuracy;
    var score := 0.5 * uptimeScore + 0.3 * accuracyScore + 0.2 * latencyScore;
    Max(0, Min(100, score.Floor))
  }

  /** The controller and the monitor score every record alike. */
  lemma ComputeScoreAgrees(s: Metrics)
    ensures ComputeScore(s) == NetworkMonitor.ReputationScore(s)
  {
  }

  /** `tickState(s)`: one clamped update of the node's state object in place. */
  method TickState(s: NodeMetrics, d: Draws)
    modifies s
    ensures s.Current() == Evolve(old(s.Current()), d)
    ensures d.Valid() ==> s.Current().InRange()
    ensures s.epochsActive == old(s.epochsActive) + 1
    ensures s.missed == old(s.missed) + (if d.fault < FaultProbability then 1 else 0)
  {
    s.uptime := Clamp(0.0, 100.0, s.uptime + (d.uptime - 0.45) * 6.0);
    s.latency := Clamp(5.0, 400.0, s.latency + (d.latency - 0.5) * 30.0);
    s.accuracy := Clamp(0.0, 100.0, s.accuracy + (d.accuracy - 0.5) * 4.0);
    s.epochsActive := s.epochsActive + 1;
    if d.fault < FaultProbability {
      s.accuracy := RMax(0.0, s.accuracy - (10.0 + d.penalty * 30.0));
      s.missed := s.missed + 1;
    }
    if d.Valid() {
      EvolveInRange(old(s.Current()), d);
    }
  }

  /** The nodes the contract calls safe, in node order. */
  function SafeFilter(nodes: seq<NodeId>, isSafe: NodeId -> bool): (safeNodes: seq<NodeId>)
    ensures |safeNodes| <= |nodes|
    ensures forall k :: 0 <= k < |safeNodes| ==> isSafe(safeNodes[k])
  {
    if nodes == [] then []
    else
      var last := nodes[|nodes| - 1];
      SafeFilter(nodes[..|nodes| - 1], isSafe) + (if isSafe(last) then [last] else [])
  }

  /** A node is in the filter exactly when it is one of `nodes` and it is safe. */
  lemma {:induction false} SafeFilterMembers(nodes: seq<NodeId>, isSafe: NodeId -> bool)
    ensures forall n :: n in SafeFilter(nodes, isSafe) <==> n in nodes && isSafe(n)
  {
    if nodes != [] {
      var init := nodes[..|nodes| - 1];
      SafeFilterMembers(init, isSafe);
      assert nodes == init + [nodes[|nodes| - 1]];
    }
  }

  /**
   * The filter keeps order: it is the subsequence of `nodes` picked out by a
   * strictly increasing list of positions, all of them safe.
   */
  lemma {:induction false} SafeFilterOrdered(nodes: seq<NodeId>, isSafe: NodeId -> bool)
    returns (at: seq<nat>)
    ensures |at| == |SafeFilter(nodes, isSafe)|
    ensures forall k :: 0 <= k < |at| ==> at[k] < |nodes| && nodes[at[k]] == SafeFilter(nodes, isSafe)[k]
    ensures forall k :: 0 <= k < |at| ==> isSafe(nodes[at[k]])
    ensures forall i, j :: 0 <= i < j < |at| ==> at[i] < at[j]
    ensures forall p :: 0 <= p < |nodes| && isSafe(nodes[p]) ==> p in at
  {
    if nodes == [] {
      at := [];
    } else {
      var last := |nodes| - 1;
      var init := nodes[..last];
      at := SafeFilterOrdered(init, isSafe);
      if isSafe(nodes[last]) {
        at := at + [last];
      }
    }
  }

  /** The `safeNodes` loop: one `isSafe` query and perhaps one `push` per node. */
  method SafeNodes(nodes: seq<NodeId>, isSafe: NodeId -> bool) returns (safeNodes: seq<NodeId>)
    ensures safeNodes == SafeFilter(nodes, isSafe)
  {
    safeNodes := [];
    for i := 0 to |nodes|
      invariant safeNodes == SafeFilter(nodes[..i], isSafe)
    {
      assert nodes[..i + 1][..i] == nodes[..i];
      if isSafe(nodes[i]) {
        safeNodes := safeNodes + [nodes[i]];
      }
    }
    assert nodes[..|nodes|] == nodes;
  }

  /**
   * The proposer: none when no node is safe, otherwise
   * `safeNodes[Math.floor(r * safeNodes.length)]`.
   */
  function ChooseProposer(safeNodes: seq<NodeId>, r: real): (chosen: Option<NodeId>)
    requires InUnit(r)
    ensures chosen.None? <==> |safeNodes| == 0
    ensures chosen.Some? ==> chosen.value in safeNodes
  {
    if |safeNodes| == 0 then None
    else
      var n := |safeNodes| as real;
      assert r * n < n;
      Some(safeNodes[(r * n).Floor])
  }

  /**
   * Each safe node is chosen on its own slice of draws: every r with
   * k <= r·len < k + 1 chooses the k-th safe node, so each of the len slices
   * has width 1 / len.
   */
  lemma ProposerDrawSlice(safeNodes: seq<NodeId>, r: real, k: nat)
    requires InUnit(r)
    requires k < |safeNodes|
    requires k as real <= r * |safeNodes| as real < (k + 1) as real
    ensures ChooseProposer(safeNodes, r) == Some(safeNodes[k])
  {
    var n := |safeNodes| as real;
    assert (r * n).Floor == k;
  }

  /** A proposer is chosen exactly when some node is safe, and it is always a safe node. */
  lemma ProposerIsSafe(nodes: seq<NodeId>, isSafe: NodeId -> bool, r: real)
    requires InUnit(r)
    ensures var chosen := ChooseProposer(SafeFilter(nodes, isSafe), r);
      && (chosen.Some? <==> exists n :: n in nodes && isSafe(n))
      && (chosen.Some? ==> chosen.value in nodes && isSafe(chosen.value))
  {
    SafeFilterMembers(nodes, isSafe);
  }
}
