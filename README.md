# Reputation-gated secure delivery: a Dafny model

This project models the core of a small blockchain demo in which simulated
nodes carry health metrics, a reputation score is computed from those
metrics, the two best-ranked nodes are forced into a healthy band every
round, a proposer is drawn from the nodes the reputation contract calls
safe, and payloads are handed to a node through a hash-chained mock KEM
followed by AES-256-GCM.

Modules, one per source file plus two shared ones:

- `Outcomes`: `Option` and `Result`; a thrown JavaScript error becomes `Err`.
- `Metrics`: the metric record of a node (`Metrics`), the object that holds
  it and is updated in place (`NodeMetrics`), the record every script
  creates for a fresh node (`Initial`; the same literal appears at
  scripts/network-monitor.js:75-81, scripts/controller.js:30-36 and
  scripts/node.js:16-22), and the clamped random walk `Evolve` that
  `updateMetrics` and `tickState` both perform (their code is identical).
- `NetworkMonitor` (scripts/network-monitor.js): the score, `updateMetrics`,
  the stable ranking and `enforceHealthyNodes`, one round of the monitor
  loop, and the liveness bound after a round.
- `Controller` (scripts/controller.js): its copy of the score, `tickState`,
  the safe-node filter and the proposer choice.
- `NodeProcess` (scripts/node.js): `tick`, whose penalty is not clamped, and
  its copy of the score.
- `CryptoLib` (backend/crypto-lib.js): Node's hex codec, the mock KEM, key
  derivation, the AES-GCM envelope and the hybrid round trip.

Modelling choices:

- JavaScript numbers are reals; every `Math.random()` draw is a parameter
  in [0, 1) (records `Draws`, `InitDraws`, `ResetDraws`, and `r` for the
  proposer), and every `crypto.randomBytes` result is a byte-sequence
  parameter of the requested length.
- The metrics table `nodeMetrics` is a `map<NodeId, NodeMetrics>` of
  objects; the methods that update it in place are specified by value
  functions (`Evolve`, `Enforce`, `RoundResult`), and the properties are
  proved about those functions.
- `scores.sort((a, b) => b.score - a.score)` is a stable sort, so its
  output is the unique listing of the entries by higher score first and,
  on equal scores, earlier position first. The model sorts entry positions
  with a stable insertion sort (`SortByScore`) and proves that listing
  property; the top two are its first `min(2, n)` positions.
- SHA-256 of a string is a parameter `sha: string -> Digest` (a digest is
  32 bytes). Properties that need it to be collision-free assume that only
  for the handful of hash inputs they compare, since no function from all
  strings into 32 bytes is injective.
- AES-256-GCM is a parameter `aead` holding `seal` and `open` functions.
  Three predicates state what is assumed of it: `AeadRoundTrips` (16-byte
  tags, ciphertexts as long as plaintexts, open undoes seal),
  `AeadAcceptsTruncatedTags` (a genuine tag cut to an accepted GCM tag
  length still opens) and `AeadAuthentic` (open accepts only the genuine
  ciphertext with a prefix of the genuine tag of an accepted length). Each
  lemma assumes only the ones it needs.
- The reputation contract's safety threshold is not visible. The liveness
  lemma is stated for every threshold of at most 90 under "safe means score
  at least threshold", and the controller's remote `isSafe` query is a
  function parameter.

Behaviour of the code worth noting:

- Ties in `enforceHealthyNodes` keep input order, because the sort at
  scripts/network-monitor.js:42 is stable.
- The record {uptime 100, latency 5, accuracy 100} scores 99, because
  latency 5 still costs 2.5 raw points (scripts/network-monitor.js:14-18).
- The penalty amount is 10 + 30·r with r in [0, 1), so it lies in [10, 40)
  (scripts/network-monitor.js:29-30).
- The healthy band is half-open: uptime in [95, 100), accuracy in [90, 95),
  latency in [30, 40) (scripts/network-monitor.js:46-48).
- scripts/node.js:30 does not clamp accuracy after a penalty, so its
  accuracy can fall to (-40, 0) for one tick (`NodeProcess.TickDiverges`,
  `NodeProcess.PenaltyExample`).
- backend/crypto-lib.js:87-92 creates the decipher without an
  `authTagLength`, so a genuine tag cut to 4, 8 or 12 to 15 bytes is still
  accepted (`CryptoLib.AesTruncatedTagAccepted`).

## Model

| member | source | states |
|---|---|---|
| `Metrics.Initial` | scripts/network-monitor.js:75-81 | a fresh record has uptime in [80,100), latency in [40,80), accuracy in [70,100), missed = epochsActive = 0, so it is in range |
| `Metrics.NodeMetrics.Init` | scripts/controller.js:30-36 | the node-state object built by the controller (and the other scripts) holds the initial record |
| `Metrics.Drift` | scripts/network-monitor.js:23-26 | the clamped random walk leaves every field in range whatever the draws, keeps missed and adds 1 to epochsActive |
| `Metrics.Evolve` | scripts/network-monitor.js:23-32 | `updateMetrics` (and `tickState`, scripts/controller.js:40-47) as a value: uptime in [0,100], latency in [5,400], accuracy at least 0 and, for draws in [0,1), at most the drifted accuracy; epochsActive + 1 |
| `Metrics.EvolveInRange` | scripts/network-monitor.js:23-30 | after an update with draws in [0,1), uptime is in [0,100], latency in [5,400], accuracy in [0,100], whatever the record held before |
| `Metrics.EvolveCounters` | scripts/network-monitor.js:26-32 | epochsActive grows by exactly 1; missed grows by 1 exactly when the fault draw is below 0.03 and is unchanged otherwise |
| `Metrics.EvolvePenalty` | scripts/network-monitor.js:29-32 | the penalty branch leaves uptime, latency and epochsActive as the drift set them and lowers accuracy by an amount in [10,40), clamped at 0; without a fault the result is the drift alone |
| `NetworkMonitor.ReputationScore` | scripts/network-monitor.js:12-19 | the score is an integer in [0,100] for every record |
| `NetworkMonitor.LatencySaturates` | scripts/network-monitor.js:14-15 | every latency of 200 or more gives the same score as latency 200 |
| `NetworkMonitor.ScoreMonotone` | scripts/network-monitor.js:13-18 | the score never decreases when uptime or accuracy rises or latency falls |
| `NetworkMonitor.BestNodeScores99` | scripts/network-monitor.js:14-18 | {uptime 100, latency 5, accuracy 100} scores 99 |
| `NetworkMonitor.WorstNodeScores0` | scripts/network-monitor.js:12-18 | {uptime 0, latency 400, accuracy 0} scores 0 |
| `NetworkMonitor.UpdateMetrics` | scripts/network-monitor.js:22-33 | the object's new record is `Evolve` of its old record, and in range when the draws are in [0,1) |
| `NetworkMonitor.SortByScore` | scripts/network-monitor.js:42 | the sorted entries are a permutation of the input entries |
| `NetworkMonitor.SortByScoreRanked` | scripts/network-monitor.js:42 | the stable descending sort lists entries by higher score first and, on a tie, earlier input position first |
| `NetworkMonitor.HealthyPicks` | scripts/network-monitor.js:42-43 | `slice(0, 2)` of the sorted entries selects min(2, n) valid positions |
| `NetworkMonitor.HealthyPicksLead` | scripts/network-monitor.js:37-43 | the picks are ranked among themselves and each ranks ahead of every position not picked: they are the first min(2, n) of the stable descending order, ties in input order |
| `NetworkMonitor.Healthy` | scripts/network-monitor.js:46-48 | a forced reset keeps missed and epochsActive and, for draws in [0,1), puts uptime in [95,100), accuracy in [90,95), latency in [30,40) |
| `NetworkMonitor.ForceHealthy` | scripts/network-monitor.js:46-48 | the three assignments to one node's object leave it holding `Healthy` of its old record |
| `NetworkMonitor.Enforce` | scripts/network-monitor.js:36-50 | `enforceHealthyNodes` as a value: same number of records, no node's missed or epochsActive changes; `EnforceEffect` states the rest |
| `NetworkMonitor.HealthyBandScore` | scripts/network-monitor.js:46-48 | every record forced into the healthy band scores between 90 and 95 |
| `NetworkMonitor.EnforceEffect` | scripts/network-monitor.js:36-50 | the picked nodes get uptime in [95,100), accuracy in [90,95), latency in [30,40) and score at least 90; every other record is unchanged; no node's missed or epochsActive changes |
| `NetworkMonitor.EnforceHealthyNodes` | scripts/network-monitor.js:36-50 | the in-place loop over the top two leaves the table holding `Enforce` of its old records |
| `NetworkMonitor.EvolveAll` | scripts/network-monitor.js:99 | the update loop as a value: record i becomes `Evolve` of record i with draw i |
| `NetworkMonitor.RoundResult` | scripts/network-monitor.js:99-100 | one round as a value: same number of records and every node's epochsActive grows by exactly 1 |
| `NetworkMonitor.Round` | scripts/network-monitor.js:99-100 | updating every node in place and then enforcing leaves the table holding `RoundResult` of its old records |
| `NetworkMonitor.RoundLiveness` | scripts/network-monitor.js:99-100 | after one round at least min(2, n) nodes score 90 or more, hence reach any safety threshold of at most 90 |
| `NetworkMonitor.RoundInvariant` | scripts/network-monitor.js:99-100 | after one round every node is in range, its epochsActive grew by 1 and its missed grew by 1 exactly on a fault |
| `Controller.ComputeScore` | scripts/controller.js:50-57 | the controller's score is an integer in [0,100] |
| `Controller.ComputeScoreAgrees` | scripts/controller.js:50-56 | the controller's score equals the monitor's `calculateReputationScore` on every record |
| `Controller.TickState` | scripts/controller.js:39-48 | the state object's new record is `Evolve` of the old one: in range, epochsActive + 1, missed + 1 only on a fault |
| `Controller.SafeFilter` | scripts/controller.js:83-87 | the filter is no longer than the node list and holds only safe nodes |
| `Controller.SafeFilterMembers` | scripts/controller.js:83-87 | a node is in `safeNodes` exactly when it is one of the nodes and the contract calls it safe |
| `Controller.SafeFilterOrdered` | scripts/controller.js:83-87 | `safeNodes` is the subsequence of the nodes at strictly increasing positions that holds every safe node |
| `Controller.SafeNodes` | scripts/controller.js:83-87 | the push loop builds exactly the order-preserving filter of the nodes by `isSafe` |
| `Controller.ChooseProposer` | scripts/controller.js:89-94 | no proposer exactly when `safeNodes` is empty; otherwise index floor(r·len) is in range and the proposer is a safe node |
| `Controller.ProposerDrawSlice` | scripts/controller.js:92 | the k-th safe node is chosen for every draw r with k <= r·len < k + 1, a slice of width 1/len per node |
| `Controller.ProposerIsSafe` | scripts/controller.js:83-94 | a proposer is chosen exactly when some node is safe, and it is one of the nodes and safe |
| `NodeProcess.Ticked` | scripts/node.js:25-32 | `tick` as a value: uptime in [0,100], latency in [5,400], epochsActive + 1, and for draws in [0,1) accuracy never above the drifted accuracy |
| `NodeProcess.Tick` | scripts/node.js:24-33 | the closed-over state's new record is `Ticked` of the old one (penalty not clamped) |
| `NodeProcess.TickBounds` | scripts/node.js:25-30 | after a tick uptime is in [0,100], latency in [5,400], accuracy in (-40,100], and in [0,100] when there was no fault |
| `NodeProcess.TickCounters` | scripts/node.js:28-32 | epochsActive grows by 1; missed grows by 1 exactly on the penalty branch |
| `NodeProcess.TickDiverges` | scripts/node.js:29-31 | `tick` and `updateMetrics` agree on every field but accuracy; accuracy differs exactly when it goes negative, which happens exactly when a penalty exceeds the drifted accuracy, where the monitor has 0 |
| `NodeProcess.PenaltyExample` | scripts/node.js:27-31 | from accuracy 5, a penalty of 10 leaves the node at accuracy -5 and score 58 where the monitor has 0 and 60 |
| `NodeProcess.ComputeScore` | scripts/node.js:35-41 | the node's score is an integer in [0,100] even when accuracy is negative |
| `NodeProcess.ComputeScoreAgrees` | scripts/node.js:35-41 | the node's score equals the monitor's `calculateReputationScore` on every record |
| `CryptoLib.HexEncode` | backend/crypto-lib.js:8 | hex encoding yields two lower-case hex digits per byte |
| `CryptoLib.HexRoundTrip` | backend/crypto-lib.js:90-94 | `Buffer.from(hex, "hex")` recovers the bytes that `toString("hex")` encoded |
| `CryptoLib.HexDecode` | backend/crypto-lib.js:90-94 | `Buffer.from(s, "hex")` yields at most half as many bytes as characters; `HexRoundTrip` fixes its content on encoded input |
| `CryptoLib.HexDigest` | backend/crypto-lib.js:10-13 | a hex SHA-256 digest is 64 lower-case hex characters |
| `CryptoLib.DerivePublicKey` | backend/crypto-lib.js:10-13 | the public key derived from a secret key (also at backend/crypto-lib.js:40-43) is 64 lower-case hex characters |
| `CryptoLib.KemGenerateKeys` | backend/crypto-lib.js:6-15 | the secret key is 64 lower-case hex characters encoding the 32 random bytes; the public key is H("pk_from_sk:" + sk), 64 hex characters |
| `CryptoLib.KemEncapsulate` | backend/crypto-lib.js:20-34 | the ciphertext and the shared secret are 64-character lower-case hex strings |
| `CryptoLib.KemDecapsulate` | backend/crypto-lib.js:37-63 | decapsulation succeeds exactly when the ciphertext is H("ct_from_pk:" + H("pk_from_sk:" + sk)), then returns encapsulation's shared secret for that public key; otherwise it fails with "Invalid KEM Ciphertext" and returns no secret |
| `CryptoLib.KemRoundTrip` | backend/crypto-lib.js:6-63 | for a generated key pair, decapsulating encapsulation's ciphertext with the secret key returns encapsulation's shared secret |
| `CryptoLib.KemCiphertextBindsKey` | backend/crypto-lib.js:20-33 | encapsulation is deterministic, and with a collision-free hash two public keys give the same ciphertext exactly when they are equal |
| `CryptoLib.KemWrongKeyRejected` | backend/crypto-lib.js:40-54 | a ciphertext made for pk1, decapsulated with a secret key whose public key is not pk1, always fails with "Invalid KEM Ciphertext" |
| `CryptoLib.DistinctKeyPairsAreSeparate` | backend/crypto-lib.js:6-54 | key pairs from different random bytes have different public keys and neither secret key decapsulates the other's ciphertext |
| `CryptoLib.DeriveAesKey` | backend/crypto-lib.js:68-70 | the AES key is exactly 32 bytes: the whole SHA-256 digest of the shared secret |
| `CryptoLib.AesEncrypt` | backend/crypto-lib.js:73-83 | a 32-byte key is required (otherwise an error); the IV is the 12 random bytes as 24 lower-case hex characters |
| `CryptoLib.AesDecrypt` | backend/crypto-lib.js:86-98 | a wrong-length key fails; otherwise decryption succeeds exactly when the cipher authenticates the decoded IV, ciphertext and tag, and fails with an authentication error otherwise |
| `CryptoLib.AesRoundTrip` | backend/crypto-lib.js:73-97 | decrypting what `aesEncrypt` returned gives back the original buffer; the tag is 32 hex characters and the ciphertext twice the data length |
| `CryptoLib.AesDecryptAuthentic` | backend/crypto-lib.js:86-97 | decryption returns a plaintext only when sealing it under that key and IV reproduces exactly the supplied ciphertext and a tag of which the supplied tag is a prefix of length 4, 8 or 12 to 16 bytes |
| `CryptoLib.AesTruncatedTagAccepted` | backend/crypto-lib.js:87-92 | because the decipher has no `authTagLength`, an envelope whose hex tag is cut to 2·n characters, n in {4, 8, 12..16}, still decrypts to the original buffer |
| `CryptoLib.HybridRoundTrip` | backend/crypto-lib.js:20-97 | encapsulate, derive the key and seal; the key holder decapsulates, derives the same key and recovers the payload |

## Left out

- Contract calls (`updateScore`, `getScore`, `isSafe`), contract deployment, the JSON file writes, console output and the endless `while (true)` loops with their `setTimeout` delays: I/O and scheduling. One loop pass of the monitor is modelled as `NetworkMonitor.Round`.
- The controller's round loop (scripts/controller.js:59-82): it interleaves `tickState` and `computeScore` with remote contract calls; each piece is modelled on its own, and the contract's `isSafe` answer enters the filter as a parameter.
- The controller's mock Kyber keys (scripts/controller.js:22-28) are only logged.
- The KEM self-check in scripts/node.js:46-55 calls `simulateKyberKeypair`, `simulateEncapsulation` and `simulateDecapsulation`, which scripts/utils.js does not define; it cannot be modelled.
- backend/server.js (HTTP routing, uploads, IPFS, contract loading, and the "first safe node" search that depends on remote `isSafe` calls), public/app.js (UI), craco.config.mjs (bundler configuration) and scripts/utils.js (random wallets) are not part of this model. The composition the server performs is stated by `CryptoLib.HybridRoundTrip`.
- IEEE floating-point rounding: scores and metrics are computed over reals. The distribution of `Math.random()` is not modelled, only its range.
- SHA-256 and AES-256-GCM internals are foreign code: the hash is an arbitrary function into 32-byte digests and the cipher is abstract. The UTF-8 encoding of hash inputs is not modelled (all hash inputs are ASCII).
- Node's IV check in `createDecipheriv` is folded into the abstract `open`. A tag of a length `setAuthTag` rejects makes `open` fail, so the model reports it as `AuthenticationFailure` where Node throws a tag-length error.
- CryptoLib.AesDecryptAuthentic: states that a wrong key, IV, ciphertext or tag fails unless it forms a genuine seal of some plaintext, where a tag truncated to 4, 8 or 12 to 15 bytes counts as genuine (Node accepts it); the residual forgery probability of a tag, which truncation raises, is not modelled.
- CryptoLib.KemCiphertextBindsKey, CryptoLib.KemWrongKeyRejected, CryptoLib.DistinctKeyPairsAreSeparate: collision resistance of SHA-256 is assumed as collision-freedom on the specific inputs compared, not proved.
- The entry objects `{ id, score }` of `enforceHealthyNodes` are represented by their positions in `nodes`; the engine's sorting algorithm is replaced by a stable insertion sort, which yields the same order because a stable sort's output is unique.
- `NetworkMonitor.EnforceHealthyNodes` and `NetworkMonitor.Round` require the table to hold one distinct object per node and no other key, as the main script builds it.
