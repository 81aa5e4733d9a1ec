/**
 * The per-node health record shared by the three simulation scripts, the
 * object that holds it, and the clamped random walk that both
 * `updateMetrics` (network-monitor) and `tickState` (controller) apply to it.
 *
 * Floating-point numbers are modelled as reals; every `Math.random()` draw
 * is an explicit parameter in [0, 1).
 */
module Metrics {

  /** A node's address (an Ethereum wallet address in the scripts). */
  type NodeId = string

  /** The value held by one node's metrics object at one moment. */
  datatype Metrics = Metrics(
    uptime: real,
    latency: real,
    accuracy: real,
    missed: nat,
    epochsActive: nat)
  {
    /** The ranges the clamped updates keep every bounded field in. */
    predicate InRange() {
      0.0 <= uptime <= 100.0 && 5.0 <= latency <= 400.0 && 0.0 <= accuracy <= 100.0
    }
  }

  /** A value `Math.random()` can return. */
  predicate InUnit(r: real) {
    0.0 <= r < 1.0
  }

  /** The three draws the initial record of a node consumes. */
  datatype InitDraws = InitDraws(uptime: real, latency: real, accuracy: real) {
    predicate Valid() {
      InUnit(uptime) && InUnit(latency) && InUnit(accuracy)
    }
  }

  /**
   * The draws one update round consumes, in call order. `penalty` is only
   * drawn when `fault` falls below the fault probability.
   */
  datatype Draws = Draws(uptime: real, latency: real, accuracy: real, fault: real, penalty: real) {
    predicate Valid() {
      InUnit(uptime) && InUnit(latency) && InUnit(accuracy) && InUnit(fault) && InUnit(penalty)
    }
  }

  /** Probability of a penalty event per node and round. */
  const FaultProbability: real := 0.03

  function RMin(a: real, b: real): real {
    if a <= b then a else b
  }

  function RMax(a: real, b: real): real {
    if a >= b then a else b
  }

  function Min(a: int, b: int): int {
    if a <= b then a else b
  }

  function Max(a: int, b: int): int {
    if a >= b then a else b
  }

  /** `Math.max(lo, Math.min(hi, x))`. */
  function Clamp(lo: real, hi: real, x: real): (r: real)
    requires lo <= hi
    ensures lo <= r <= hi
    ensures lo <= x <= hi ==> r == x
  {
    RMax(lo, RMin(hi, x))
  }

  /** The record every script creates for a fresh node. */
  function Initial(d: InitDraws): (m: Metrics)
    requires d.Valid()
    ensures 80.0 <= m.uptime < 100.0 && 40.0 <= m.latency < 80.0 && 70.0 <= m.accuracy < 100.0
    ensures m.missed == 0 && m.epochsActive == 0
    ensures m.InRange()
  {
    Metrics(80.0 + d.uptime * 20.0, 40.0 + d.latency * 40.0, 70.0 + d.accuracy * 30.0, 0, 0)
  }

  /** The amount a penalty event subtracts from accuracy. */
  function PenaltyAmount(d: Draws): real {
    10.0 + d.penalty * 30.0
  }

  /** One round without the penalty branch: the clamped random walk and the epoch count. */
  function Drift(s: Metrics, d: Draws): (r: Metrics)
    ensures r.InRange()
    ensures r.missed == s.missed && r.epochsActive == s.epochsActive + 1
  {
    Metrics(
      Clamp(0.0, 100.0, s.uptime + (d.uptime - 0.45) * 6.0),
      Clamp(5.0, 400.0, s.latency + (d.latency - 0.5) * 30.0),
      Clamp(0.0, 100.0, s.accuracy + (d.accuracy - 0.5) * 4.0),
      s.missed,
      s.epochsActive + 1)
  }

  /** One round of `updateMetrics` / `tickState`: drift, then perhaps a penalty clamped at zero. */
  function Evolve(s: Metrics, d: Draws): (r: Metrics)
    ensures 0.0 <= r.uptime <= 100.0 && 5.0 <= r.latency <= 400.0 && 0.0 <= r.accuracy
    ensures r.epochsActive == s.epochsActive + 1
    ensures d.Valid() ==> r.accuracy <= Drift(s, d).accuracy
  {
    var t := Drift(s, d);
    if d.fault < FaultProbability then
      t.(accuracy := RMax(0.0, t.accuracy - PenaltyAmount(d)), missed := t.missed + 1)
    else
      t
  }

  /** After a round every bounded field is in range, whatever the record held before. */
  lemma EvolveInRange(s: Metrics, d: Draws)
    requires d.Valid()
    ensures Evolve(s, d).InRange()
  {
  }

  /** epochsActive grows by one; missed grows by one exactly on the penalty branch. */
  lemma EvolveCounters(s: Metrics, d: Draws)
    ensures Evolve(s, d).epochsActive == s.epochsActive + 1
    ensures Evolve(s, d).missed == s.missed + 1 <==> d.fault < FaultProbability
    ensures Evolve(s, d).missed == s.missed <==> !(d.fault < FaultProbability)
  {
  }

  /**
   * The penalty branch changes only accuracy and missed relative to the drift:
   * accuracy drops by an amount in [10, 40), or to 0 when that would go below 0.
   */
  lemma EvolvePenalty(s: Metrics, d: Draws)
    requires d.Valid()
    ensures var t, r := Drift(s, d), Evolve(s, d);
      && r.uptime == t.uptime && r.latency == t.latency && r.epochsActive == t.epochsActive
      && (d.fault < FaultProbability ==>
            && 0.0 <= r.accuracy
            && (r.accuracy == 0.0 || t.accuracy - 40.0 < r.accuracy <= t.accuracy - 10.0)
            && (t.accuracy >= 40.0 ==> r.accuracy > 0.0))
      && (!(d.fault < FaultProbability) ==> r == t)
  {
  }

  /** A node's metrics object, updated field by field in place. */
  class NodeMetrics {
    var uptime: real
    var latency: real
    var accuracy: real
    var missed: nat
    var epochsActive: nat

    /** The record the object currently holds. */
    function Current(): Metrics
      reads this
    {
      Metrics(uptime, latency, accuracy, missed, epochsActive)
    }

    /** The object literal `{ uptime: 80 + r*20, latency: 40 + r*40, ... }`. */
    constructor Init(d: InitDraws)
      requires d.Valid()
      ensures Current() == Initial(d)
    {
      uptime := 80.0 + d.uptime * 20.0;
      latency := 40.0 + d.latency * 40.0;
      accuracy := 70.0 + d.accuracy * 30.0;
      missed := 0;
      epochsActive := 0;
    }
  }
}
