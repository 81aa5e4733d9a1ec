/**
 * scripts/network-monitor.js: the reputation score, the per-round metric
 * update, the policy that forces the two best-ranked nodes into a healthy
 * band, and one round of the monitor loop (update every node, then enforce).
 * The contract calls that publish the scores are left out.
 */
module NetworkMonitor {
  import opened Metrics

  // ---------------------------------------------------------------------
  // Reputation score
  // ---------------------------------------------------------------------

  /** `calculateReputationScore`: 0.5·uptime + 0.3·accuracy + 0.2·latencyScore, floored and clamped. */
  function ReputationScore(m: Metrics): (score: int)
    ensures 0 <= score <= 100
  {
    var uptimeScore := m.uptime;
    var latencyNormalized := RMin(200.0, m.latency);
    var latencyScore := 100.0 - (latencyNormalized / 200.0) * 100.0;
    var accuracyScore := m.accuracy;
    var score := 0.5 * uptimeScore + 0.3 * accuracyScore + 0.2 * latencyScore;
    Max(0, Min(100, score.Floor))
  }

  /** Latency beyond 200 no longer costs anything: the latency term saturates at 0. */
  lemma LatencySaturates(m: Metrics)
    requires m.latency >= 200.0
    ensures ReputationScore(m) == ReputationScore(m.(latency := 200.0))
  {
  }

  lemma FloorMonotone(x: real, y: real)
    requires x <= y
    ensures x.Floor <= y.Floor
  {
  }

  /** Better uptime, better accuracy or lower latency never lowers the score. */
  lemma ScoreMonotone(a: Metrics, b: Metrics)
    requires a.uptime <= b.uptime && a.accuracy <= b.accuracy && a.latency >= b.latency
    ensures ReputationScore(a) <= ReputationScore(b)
  {
    var ra := 0.5 * a.uptime + 0.3 * a.accuracy + 0.2 * (100.0 - (RMin(200.0, a.latency) / 200.0) * 100.0);
    var rb := 0.5 * b.uptime + 0.3 * b.accuracy + 0.2 * (100.0 - (RMin(200.0, b.latency) / 200.0) * 100.0);
    FloorMonotone(ra, rb);
  }

  /** A perfect node at the 5 ms latency floor scores 99: the latency costs 2.5 raw points. */
  lemma BestNodeScores99()
    ensures ReputationScore(Metrics(100.0, 5.0, 100.0, 0, 0)) == 99
  {
  }

  /** The worst record scores 0. */
  lemma WorstNodeScores0()
    ensures ReputationScore(Metrics(0.0, 400.0, 0.0, 0, 0)) == 0
  {
  }

  // ---------------------------------------------------------------------
  // Metric evolution
  // ---------------------------------------------------------------------

  /** `updateMetrics`: assigns the fields of the node's metrics object in place. */
  method UpdateMetrics(m: NodeMetrics, d: Draws)
    modifies m
    ensures m.Current() == Evolve(old(m.Current()), d)
    ensures d.Valid() ==> m.Current().InRange()
  {
    m.uptime := Clamp(0.0, 100.0, m.uptime + (d.uptime - 0.45) * 6.0);
    m.latency := Clamp(5.0, 400.0, m.latency + (d.latency - 0.5) * 30.0);
    m.accuracy := Clamp(0.0, 100.0, m.accuracy + (d.accuracy - 0.5) * 4.0);
    m.epochsActive := m.epochsActive + 1;
    if d.fault < FaultProbability {
      m.accuracy := RMax(0.0, m.accuracy - (10.0 + d.penalty * 30.0));
      m.missed := m.missed + 1;
    }
    if d.Valid() {
      EvolveInRange(old(m.Current()), d);
    }
  }

  // ---------------------------------------------------------------------
  // Stable ranking by descending score
  // ---------------------------------------------------------------------

  /**
   * Position i comes before position j in the stable descending order of
   * `scores`: a higher score first, and on a tie the earlier position.
   */
  predicate RanksAhead(scores: seq<int>, i: nat, j: nat)
    requires i < |scores| && j < |scores|
  {
    scores[i] > scores[j] || (scores[i] == scores[j] && i < j)
  }

  /** `order` lists positions of `scores` in stable descending order. */
  predicate Ranked(scores: seq<int>, order: seq<nat>)
    requires forall k :: 0 <= k < |order| ==> order[k] < |scores|
  {
    forall i, j :: 0 <= i < j < |order| ==> RanksAhead(scores, order[i], order[j])
  }

  predicate Increasing(order: seq<nat>) {
    forall i, j :: 0 <= i < j < |order| ==> order[i] < order[j]
  }

  /** The positions 0 .. n-1, standing for the `{ id, score }` entries in input order. */
  function Positions(n: nat): (ps: seq<nat>)
    ensures |ps| == n && forall k :: 0 <= k < n ==> ps[k] == k
  {
    seq(n, k => k)
  }

  /** Inserts position x before the first entry whose score does not exceed x's. */
  function InsertByScore(scores: seq<int>, x: nat, sorted: seq<nat>): (r: seq<nat>)
    requires x < |scores|
    requires forall k :: 0 <= k < |sorted| ==> sorted[k] < |scores|
    ensures multiset(r) == multiset(sorted) + multiset{x}
    ensures forall k :: 0 <= k < |r| ==> r[k] < |scores|
  {
    if sorted == [] || scores[sorted[0]] <= scores[x] then [x] + sorted
    else
      assert sorted == [sorted[0]] + sorted[1..];
      [sorted[0]] + InsertByScore(scores, x, sorted[1..])
  }

  /**
   * The order `Array.prototype.sort` with comparator `b.score - a.score`
   * gives (a stable sort): insertion of each entry in front of the sorted rest.
   */
  function SortByScore(scores: seq<int>, order: seq<nat>): (r: seq<nat>)
    requires forall k :: 0 <= k < |order| ==> order[k] < |scores|
    ensures multiset(r) == multiset(order)
    ensures forall k :: 0 <= k < |r| ==> r[k] < |scores|
  {
    if order == [] then []
    else
      assert order == [order[0]] + order[1..];
      InsertByScore(scores, order[0], SortByScore(scores, order[1..]))
  }

  lemma {:induction false} InsertByScoreRanked(scores: seq<int>, x: nat, sorted: seq<nat>)
    requires x < |scores|
    requires forall k :: 0 <= k < |sorted| ==> sorted[k] < |scores|
    requires Ranked(scores, sorted)
    requires forall k :: 0 <= k < |sorted| ==> x < sorted[k]
    ensures Ranked(scores, InsertByScore(scores, x, sorted))
  {
    var r := InsertByScore(scores, x, sorted);
    if sorted == [] {
    } else if scores[sorted[0]] <= scores[x] {
      assert forall k :: 0 <= k < |sorted| ==> scores[sorted[k]] <= scores[sorted[0]] by {
        forall k | 0 < k < |sorted| ensures scores[sorted[k]] <= scores[sorted[0]] {
          assert RanksAhead(scores, sorted[0], sorted[k]);
        }
      }
      forall i, j | 0 <= i < j < |r| ensures RanksAhead(scores, r[i], r[j]) {
        if i > 0 {
          assert r[i] == sorted[i - 1] && r[j] == sorted[j - 1];
        }
      }
    } else {
      var tail := sorted[1..];
      InsertByScoreRanked(scores, x, tail);
      var rest := InsertByScore(scores, x, tail);
      assert r == [sorted[0]] + rest;
      forall k | 0 <= k < |rest| ensures RanksAhead(scores, sorted[0], rest[k]) {
        assert rest[k] in multiset(tail) + multiset{x} by {
          assert rest[k] in multiset(rest);
        }
        if rest[k] != x {
          assert rest[k] in tail;
          var m :| 0 <= m < |tail| && tail[m] == rest[k];
          assert RanksAhead(scores, sorted[0], sorted[m + 1]);
        }
      }
      forall i, j | 0 <= i < j < |r| ensures RanksAhead(scores, r[i], r[j]) {
        if i > 0 {
          assert r[i] == rest[i - 1] && r[j] == rest[j - 1];
        }
      }
    }
  }

  lemma {:induction false} SortByScoreRanked(scores: seq<int>, order: seq<nat>)
    requires forall k :: 0 <= k < |order| ==> order[k] < |scores|
    requires Increasing(order)
    ensures Ranked(scores, SortByScore(scores, order))
  {
    if order != [] {
      var tail := order[1..];
      SortByScoreRanked(scores, tail);
      var sortedTail := SortByScore(scores, tail);
      forall k | 0 <= k < |sortedTail| ensures order[0] < sortedTail[k] {
        assert sortedTail[k] in multiset(sortedTail);
        assert sortedTail[k] in tail;
      }
      InsertByScoreRanked(scores, order[0], sortedTail);
    }
  }

  /** The positions `sorted.slice(0, 2)` selects: the first two of the stable descending order. */
  function HealthyPicks(scores: seq<int>): (picks: seq<nat>)
    ensures |picks| == Min(2, |scores|)
    ensures forall k :: 0 <= k < |picks| ==> picks[k] < |scores|
  {
    var sorted := SortByScore(scores, Positions(|scores|));
    assert |sorted| == |multiset(sorted)| == |scores|;
    sorted[..Min(2, |scores|)]
  }

  /**
   * The picks are the first min(2, n) entries of the stable descending
   * order: they are ranked among themselves, and each ranks ahead of every
   * position left out. Ties keep input order; there is no id tie-break.
   */
  lemma HealthyPicksLead(scores: seq<int>)
    ensures Ranked(scores, HealthyPicks(scores))
    ensures forall k, q :: 0 <= k < |HealthyPicks(scores)| && 0 <= q < |scores| && q !in HealthyPicks(scores)
              ==> RanksAhead(scores, HealthyPicks(scores)[k], q)
  {
    var ps := Positions(|scores|);
    var sorted := SortByScore(scores, ps);
    SortByScoreRanked(scores, ps);
    var picks := HealthyPicks(scores);
    assert |sorted| == |multiset(sorted)| == |scores|;
    assert picks == sorted[..|picks|];
    forall k, q | 0 <= k < |picks| && 0 <= q < |scores| && q !in picks
      ensures RanksAhead(scores, picks[k], q)
    {
      assert q in multiset(ps) by { assert ps[q] == q; }
      assert q in sorted by { assert q in multiset(sorted); }
      var m :| 0 <= m < |sorted| && sorted[m] == q;
      assert forall i :: 0 <= i < |picks| ==> sorted[i] == picks[i] != q;
      assert |picks| <= m;
      assert RanksAhead(scores, sorted[k], sorted[m]);
    }
  }

  /** Ranked sequences hold distinct positions. */
  lemma RankedDistinct(scores: seq<int>, order: seq<nat>)
    requires forall k :: 0 <= k < |order| ==> order[k] < |scores|
    requires Ranked(scores, order)
    ensures forall i, j :: 0 <= i < j < |order| ==> order[i] != order[j]
  {
    forall i, j | 0 <= i < j < |order| ensures order[i] != order[j] {
      assert RanksAhead(scores, order[i], order[j]);
    }
  }

  // ---------------------------------------------------------------------
  // enforceHealthyNodes, on values
  // ---------------------------------------------------------------------

  /** The three draws one forced reset consumes, in call order. */
  datatype ResetDraws = ResetDraws(uptime: real, accuracy: real, latency: real) {
    predicate Valid() {
      InUnit(uptime) && InUnit(accuracy) && InUnit(latency)
    }
  }

  /** A forced reset: uptime, accuracy and latency are overwritten; missed and epochsActive stay. */
  function Healthy(m: Metrics, d: ResetDraws): (r: Metrics)
    ensures r.missed == m.missed && r.epochsActive == m.epochsActive
    ensures d.Valid() ==> r.InRange() && 95.0 <= r.uptime < 100.0 && 90.0 <= r.accuracy < 95.0 && 30.0 <= r.latency < 40.0
  {
    m.(uptime := 95.0 + d.uptime * 5.0, accuracy := 90.0 + d.accuracy * 5.0, latency := 30.0 + d.latency * 10.0)
  }

  /** Every record in the healthy band scores between 90 and 95. */
  lemma HealthyBandScore(m: Metrics, d: ResetDraws)
    requires d.Valid()
    ensures 90 <= ReputationScore(Healthy(m, d)) <= 95
  {
  }

  /** The score of every record. */
  function Scores(snaps: seq<Metrics>): (scores: seq<int>)
    ensures |scores| == |snaps|
    ensures forall i :: 0 <= i < |snaps| ==> scores[i] == ReputationScore(snaps[i])
  {
    seq(|snaps|, i requires 0 <= i < |snaps| => ReputationScore(snaps[i]))
  }

  /** Applies the resets to the picked positions in order, as the `for ... of top2` loop does. */
  function ResetAll(snaps: seq<Metrics>, picks: seq<nat>, resets: seq<ResetDraws>): (r: seq<Metrics>)
    requires forall k :: 0 <= k < |picks| ==> picks[k] < |snaps|
    requires |picks| <= |resets|
    ensures |r| == |snaps|
    ensures forall q :: 0 <= q < |snaps| ==> r[q].missed == snaps[q].missed && r[q].epochsActive == snaps[q].epochsActive
  {
    if picks == [] then snaps
    else
      var last := |picks| - 1;
      var s := ResetAll(snaps, picks[..last], resets);
      s[picks[last] := Healthy(s[picks[last]], resets[last])]
  }

  lemma {:induction false} ResetAllAt(snaps: seq<Metrics>, picks: seq<nat>, resets: seq<ResetDraws>)
    requires forall k :: 0 <= k < |picks| ==> picks[k] < |snaps|
    requires |picks| <= |resets|
    requires forall i, j :: 0 <= i < j < |picks| ==> picks[i] != picks[j]
    ensures forall k :: 0 <= k < |picks| ==>
              ResetAll(snaps, picks, resets)[picks[k]] == Healthy(snaps[picks[k]], resets[k])
    ensures forall q :: 0 <= q < |snaps| && q !in picks ==> ResetAll(snaps, picks, resets)[q] == snaps[q]
  {
    if picks != [] {
      var last := |picks| - 1;
      var init := picks[..last];
      ResetAllAt(snaps, init, resets);
      forall q | 0 <= q < |snaps| && q !in init && q != picks[last]
        ensures q !in picks
      {
        assert picks == init + [picks[last]];
      }
      forall k | 0 <= k < last ensures picks[k] in init && picks[k] != picks[last] {
        assert init[k] == picks[k];
      }
    }
  }

  /** `enforceHealthyNodes` on the records of `nodes`, in node order. */
  function Enforce(snaps: seq<Metrics>, resets: seq<ResetDraws>): (r: seq<Metrics>)
    requires |resets| == Min(2, |snaps|)
    ensures |r| == |snaps|
    ensures forall q :: 0 <= q < |snaps| ==> r[q].missed == snaps[q].missed && r[q].epochsActive == snaps[q].epochsActive
  {
    ResetAll(snaps, HealthyPicks(Scores(snaps)), resets)
  }

  /**
   * What `enforceHealthyNodes` promises: the first min(2, n) positions of the
   * stable descending order land in the healthy band, every other record is
   * unchanged, and no counter moves.
   */
  lemma EnforceEffect(snaps: seq<Metrics>, resets: seq<ResetDraws>)
    requires |resets| == Min(2, |snaps|)
    requires forall k :: 0 <= k < |resets| ==> resets[k].Valid()
    ensures var picks, r := HealthyPicks(Scores(snaps)), Enforce(snaps, resets);
      && (forall k :: 0 <= k < |picks| ==>
            && 95.0 <= r[picks[k]].uptime < 100.0
            && 90.0 <= r[picks[k]].accuracy < 95.0
            && 30.0 <= r[picks[k]].latency < 40.0
            && ReputationScore(r[picks[k]]) >= 90)
      && (forall q :: 0 <= q < |snaps| && q !in picks ==> r[q] == snaps[q])
      && (forall q :: 0 <= q < |snaps| ==>
            r[q].missed == snaps[q].missed && r[q].epochsActive == snaps[q].epochsActive)
  {
    var picks := HealthyPicks(Scores(snaps));
    HealthyPicksLead(Scores(snaps));
    RankedDistinct(Scores(snaps), picks);
    ResetAllAt(snaps, picks, resets);
    forall k | 0 <= k < |picks| ensures ReputationScore(Enforce(snaps, resets)[picks[k]]) >= 90 {
      HealthyBandScore(snaps[picks[k]], resets[k]);
    }
  }

  // ---------------------------------------------------------------------
  // Counting healthy nodes
  // ---------------------------------------------------------------------

  /** How many records score at least `bound`. */
  function CountScoringAtLeast(snaps: seq<Metrics>, bound: int): nat {
    if snaps == [] then 0
    else (if ReputationScore(snaps[0]) >= bound then 1 else 0) + CountScoringAtLeast(snaps[1..], bound)
  }

  lemma {:induction false} CountAtLeastOne(snaps: seq<Metrics>, bound: int, i: nat)
    requires i < |snaps| && ReputationScore(snaps[i]) >= bound
    ensures CountScoringAtLeast(snaps, bound) >= 1
  {
    if i > 0 {
      CountAtLeastOne(snaps[1..], bound, i - 1);
    }
  }

  lemma {:induction false} CountAtLeastTwo(snaps: seq<Metrics>, bound: int, i: nat, j: nat)
    requires i < j < |snaps|
    requires ReputationScore(snaps[i]) >= bound && ReputationScore(snaps[j]) >= bound
    ensures CountScoringAtLeast(snaps, bound) >= 2
  {
    if i == 0 {
      CountAtLeastOne(snaps[1..], bound, j - 1);
    } else {
      CountAtLeastTwo(snaps[1..], bound, i - 1, j - 1);
    }
  }

  // ---------------------------------------------------------------------
  // One round, on values
  // ---------------------------------------------------------------------

  /** `updateMetrics` applied to every node's record. */
  function EvolveAll(snaps: seq<Metrics>, draws: seq<Draws>): (r: seq<Metrics>)
    requires |draws| == |snaps|
    ensures |r| == |snaps|
    ensures forall i :: 0 <= i < |snaps| ==> r[i] == Evolve(snaps[i], draws[i])
  {
    seq(|snaps|, i requires 0 <= i < |snaps| => Evolve(snaps[i], draws[i]))
  }

  /** One monitor round: update every node, then enforce the healthy pair. */
  function RoundResult(snaps: seq<Metrics>, draws: seq<Draws>, resets: seq<ResetDraws>): (r: seq<Metrics>)
    requires |draws| == |snaps|
    requires |resets| == Min(2, |snaps|)
    ensures |r| == |snaps|
    ensures forall i :: 0 <= i < |r| ==> r[i].epochsActive == snaps[i].epochsActive + 1
  {
    Enforce(EvolveAll(snaps, draws), resets)
  }

  /**
   * Liveness: after a round, at least min(2, n) nodes score 90 or more, so
   * every safety threshold of at most 90 admits at least that many nodes.
   */
  lemma RoundLiveness(snaps: seq<Metrics>, draws: seq<Draws>, resets: seq<ResetDraws>, threshold: int)
    requires |draws| == |snaps|
    requires |resets| == Min(2, |snaps|)
    requires forall k :: 0 <= k < |resets| ==> resets[k].Valid()
    requires threshold <= 90
    ensures CountScoringAtLeast(RoundResult(snaps, draws, resets), threshold) >= Min(2, |snaps|)
  {
    var evolved := EvolveAll(snaps, draws);
    var r := RoundResult(snaps, draws, resets);
    var picks := HealthyPicks(Scores(evolved));
    EnforceEffect(evolved, resets);
    HealthyPicksLead(Scores(evolved));
    RankedDistinct(Scores(evolved), picks);
    if |picks| == 1 {
      CountAtLeastOne(r, threshold, picks[0]);
    } else if |picks| == 2 {
      if picks[0] < picks[1] {
        CountAtLeastTwo(r, threshold, picks[0], picks[1]);
      } else {
        CountAtLeastTwo(r, threshold, picks[1], picks[0]);
      }
    }
  }

  /** After a round, every bounded field of every node is in range and the counters moved as in `updateMetrics`. */
  lemma RoundInvariant(snaps: seq<Metrics>, draws: seq<Draws>, resets: seq<ResetDraws>)
    requires |draws| == |snaps|
    requires |resets| == Min(2, |snaps|)
    requires forall k :: 0 <= k < |draws| ==> draws[k].Valid()
    requires forall k :: 0 <= k < |resets| ==> resets[k].Valid()
    ensures var r := RoundResult(snaps, draws, resets);
      forall q :: 0 <= q < |snaps| ==>
        && r[q].InRange()
        && r[q].epochsActive == snaps[q].epochsActive + 1
        && (r[q].missed == snaps[q].missed + 1 <==> draws[q].fault < FaultProbability)
        && (r[q].missed == snaps[q].missed <==> !(draws[q].fault < FaultProbability))
  {
    var evolved := EvolveAll(snaps, draws);
    var picks := HealthyPicks(Scores(evolved));
    EnforceEffect(evolved, resets);
    forall q | 0 <= q < |snaps| ensures evolved[q].InRange() {
      EvolveInRange(snaps[q], draws[q]);
    }
  }

  // ---------------------------------------------------------------------
  // The metrics table and its in-place updates
  // ---------------------------------------------------------------------

  /**
   * The `nodeMetrics` table the main script builds: one fresh object per
   * node and no other key.
   */
  ghost predicate Registry(nodes: seq<NodeId>, table: map<NodeId, NodeMetrics>) {
    && (forall i :: 0 <= i < |nodes| ==> nodes[i] in table)
    && (forall n :: n in table ==> n in nodes)
    && (forall i, j :: 0 <= i < j < |nodes| ==> table[nodes[i]] != table[nodes[j]])
  }

  /** The records of `nodes`, in node order. */
  function Snapshots(nodes: seq<NodeId>, table: map<NodeId, NodeMetrics>): (snaps: seq<Metrics>)
    requires forall i :: 0 <= i < |nodes| ==> nodes[i] in table
    reads table.Values
    ensures |snaps| == |nodes|
    ensures forall i :: 0 <= i < |nodes| ==> snaps[i] == table[nodes[i]].Current()
  {
    seq(|nodes|, i requires 0 <= i < |nodes| reads table.Values => table[nodes[i]].Current())
  }

  /** One iteration of the `for ... of top2` loop: overwrite three fields of the picked node's object. */
  method ForceHealthy(m: NodeMetrics, d: ResetDraws)
    modifies m
    ensures m.Current() == Healthy(old(m.Current()), d)
  {
    m.uptime := 95.0 + d.uptime * 5.0;
    m.accuracy := 90.0 + d.accuracy * 5.0;
    m.latency := 30.0 + d.latency * 10.0;
  }

  lemma ResetAllStep(snaps: seq<Metrics>, picks: seq<nat>, resets: seq<ResetDraws>, k: nat)
    requires forall i :: 0 <= i < |picks| ==> picks[i] < |snaps|
    requires |picks| <= |resets|
    requires k < |picks|
    ensures var prev := ResetAll(snaps, picks[..k], resets);
      ResetAll(snaps, picks[..k + 1], resets) == prev[picks[k] := Healthy(prev[picks[k]], resets[k])]
  {
    assert picks[..k + 1][..k] == picks[..k];
  }

  /** `enforceHealthyNodes(nodes, nodeMetrics)`. */
  method EnforceHealthyNodes(nodes: seq<NodeId>, table: map<NodeId, NodeMetrics>, resets: seq<ResetDraws>)
    requires Registry(nodes, table)
    requires |resets| == Min(2, |nodes|)
    modifies table.Values
    ensures Snapshots(nodes, table) == Enforce(old(Snapshots(nodes, table)), resets)
  {
    ghost var before := Snapshots(nodes, table);
    var scores := Scores(Snapshots(nodes, table));
    var top := HealthyPicks(scores);
    for k := 0 to |top|
      invariant forall q :: 0 <= q < |nodes| ==> table[nodes[q]].Current() == ResetAll(before, top[..k], resets)[q]
    {
      ghost var prev := ResetAll(before, top[..k], resets);
      var m := table[nodes[top[k]]];
      assert m in table.Values;
      forall q | 0 <= q < |nodes| && q != top[k] ensures table[nodes[q]] != m {
        if q < top[k] {} else {}
      }
      ForceHealthy(m, resets[k]);
      ResetAllStep(before, top, resets, k);
    }
    assert top[..|top|] == top;
  }

  /** One pass of the monitor loop: `updateMetrics` on every node, then `enforceHealthyNodes`. */
  method Round(nodes: seq<NodeId>, table: map<NodeId, NodeMetrics>, draws: seq<Draws>, resets: seq<ResetDraws>)
    requires Registry(nodes, table)
    requires |draws| == |nodes|
    requires |resets| == Min(2, |nodes|)
    modifies table.Values
    ensures Snapshots(nodes, table) == RoundResult(old(Snapshots(nodes, table)), draws, resets)
  {
    ghost var before := Snapshots(nodes, table);
    for i := 0 to |nodes|
      invariant forall q :: 0 <= q < i ==> table[nodes[q]].Current() == Evolve(before[q], draws[q])
      invariant forall q :: i <= q < |nodes| ==> table[nodes[q]].Current() == before[q]
    {
      assert table[nodes[i]] in table.Values;
      UpdateMetrics(table[nodes[i]], draws[i]);
    }
    assert Snapshots(nodes, table) == EvolveAll(before, draws);
    EnforceHealthyNodes(nodes, table, resets);
  }
}
