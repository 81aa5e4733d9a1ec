/**
 * scripts/node.js: a single node's loop state, its `tick` update and its
 * copy of the score. Unlike the monitor and the controller, `tick`
 * subtracts the penalty without clamping it, so accuracy can go below 0
 * until the next tick clamps it again.
 */
module NodeProcess {
  import opened Metrics
  import NetworkMonitor

  /** One `tick()`: the clamped random walk, then a penalty that is not clamped. */
  function Ticked(s: Metrics, d: Draws): (r: Metrics)
    ensures 0.0 <= r.uptime <= 100.0 && 5.0 <= r.latency <= 400.0
    ensures d.Valid() ==> r.accuracy <= Drift(s, d).accuracy
    ensures r.epochsActive == s.epochsActive + 1
  {
    var t := Drift(s, d);
    if d.fault < FaultProbability then
      t.(accuracy := t.accuracy - PenaltyAmount(d), missed := t.missed + 1)
    else
      t
  }

  /** `tick()`: updates the closed-over `state` object with `+=`, `-=` and `++`. */
  method Tick(state: NodeMetrics, d: Draws)
    modifies state
    ensures state.Current() == Ticked(old(state.Current()), d)
  {
    state.uptime := Clamp(0.0, 100.0, state.uptime + (d.uptime - 0.45) * 6.0);
    state.latency := Clamp(5.0, 400.0, state.latency + (d.latency - 0.5) * 30.0);
    state.accuracy := Clamp(0.0, 100.0, state.accuracy + (d.accuracy - 0.5) * 4.0);
    state.epochsActive := state.epochsActive + 1;
    if d.fault < FaultProbability {
      state.accuracy := state.accuracy - (10.0 + d.penalty * 30.0);
      state.missed := state.missed + 1;
    }
  }

  /**
   * Bounds after a tick: uptime and latency are in range, accuracy lies in
   * (-40, 100]; without a penalty it is back in [0, 100] whatever it was.
   */
  lemma TickBounds(s: Metrics, d: Draws)
    requires d.Valid()
    ensures var r := Ticked(s, d);
      && 0.0 <= r.uptime <= 100.0
      && 5.0 <= r.latency <= 400.0
      && -40.0 < r.accuracy <= 100.0
      && (!(d.fault < FaultProbability) ==> 0.0 <= r.accuracy)
  {
  }

  /** epochsActive grows by one; missed grows by one exactly on the penalty branch. */
  lemma TickCounters(s: Metrics, d: Draws)
    ensures Ticked(s, d).epochsActive == s.epochsActive + 1
    ensures Ticked(s, d).missed == s.missed + 1 <==> d.fault < FaultProbability
    ensures Ticked(s, d).missed == s.missed <==> !(d.fault < FaultProbability)
  {
  }

  /**
   * The divergence from the monitor's `updateMetrics`: the two updates agree
   * on every field but accuracy, and on accuracy too unless a penalty exceeds
   * the drifted accuracy, in which case the node's value is negative where
   * the monitor's is 0.
   */
  lemma TickDiverges(s: Metrics, d: Draws)
    requires d.Valid()
    ensures var a, b := Ticked(s, d), Evolve(s, d);
      && a.uptime == b.uptime && a.latency == b.latency
      && a.missed == b.missed && a.epochsActive == b.epochsActive
      && (a.accuracy == b.accuracy <==> 0.0 <= a.accuracy)
      && (a.accuracy < 0.0 <==> d.fault < FaultProbability && Drift(s, d).accuracy < PenaltyAmount(d))
      && (a.accuracy < 0.0 ==> b.accuracy == 0.0)
  {
  }

  /** `computeScore(s)`, with the latency term written inline. */
  function ComputeScore(s: Metrics): (score: int)
    ensures 0 <= score <= 100
  {
    var uptimeScore := s.uptime;
    var latencyScore := 100.0 - (RMin(200.0, s.latency) / 200.0) * 100.0;
    var accuracyScore := s.accuracy;
    var score := 0.5 * uptimeScore + 0.3 * accuracyScore + 0.2 * latencyScore;
    Max(0, Min(100, score.Floor))
  }

  /** The node's score agrees with the monitor's on every record, negative accuracy included. */
  lemma ComputeScoreAgrees(s: Metrics)
    ensures ComputeScore(s) == NetworkMonitor.ReputationScore(s)
  {
  }

  /**
   * A concrete divergence: from accuracy 5 a penalty of 10 leaves the node at
   * accuracy -5 and score 58, where the monitor's update gives 0 and 60.
   */
  lemma PenaltyExample()
    ensures var s, d := Metrics(90.0, 50.0, 5.0, 0, 0), Draws(0.5, 0.5, 0.5, 0.0, 0.0);
      && Ticked(s, d).accuracy == -5.0 && Evolve(s, d).accuracy == 0.0
      && ComputeScore(Ticked(s, d)) == 58 && NetworkMonitor.ReputationScore(Evolve(s, d)) == 60
  {
  }
}
