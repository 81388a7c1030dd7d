# A verified model of IdentityAttackGraph's core

IdentityAttackGraph projects machine identities and what they may do into a graph, scores each identity,
raises findings, alerts on them and proposes remediations. This project models the parts of it where a
mistake would be silent, and proves what the code and its documentation promise about them:

- **The attack-graph engine** (`Walks`, `Layers`, `Frontier`, `Reach`, `Impact`, `Attack`, `Neighbors`,
  `Stored`, `Percentile`, `Graph`). Distance is defined by walks. The breadth-first order is defined by layers, with no
  queue, and shown to be exact for distance. Each queue-driven traversal of the `Graph` object is then proved
  to compute what its declarative meaning says, and the traversals are proved to agree with one another. `Stored`
  restates every result over the stored edges, with the edge types written out.
- **Wildcards and criticality** (`Glob`, `Strings`, `Resolver`, `Policy`). The one-backtrack-point matcher
  against the recursive meaning of `*` and `?`, what reaching a tagged resource means, and what a policy
  analysis derives from it.
- **Findings and alerts** (`Findings`, `Alerts`). The findings table as an object; the claim, send, mark
  protocol as a state machine whose runs interleave with detectors and analysts.
- **Risk and remediation** (`Risk`, `Signals`, `Remediation`, `Effects`, `Scoring`). The six factors, the mutations on
  shared slices and condition maps, and the accounting of every plan. `Signals` says what each factor scores, with
  every threshold written out; `Effects` what each remediation leaves of each factor.
- **Shared state elsewhere** (`Jwks`, `RateLimit`, `Upserts`, `Collector`, `Columns`, `Detect`, `Histogram`,
  `StableSort`). The signing-key cache under concurrent callers, the fixed-window limiter, idempotent collection, the
  merge of detector outputs and the usage histogram.

Modelling conventions. A UUID is a value with equality only. Name-based ids and fingerprints are function
parameters. Iteration over a Go map is a loop that takes keys in any order. Database, notifier, HTTP and
clock outcomes are parameters. Strings are sequences of single-byte characters. Weights and means are exact
rationals. A panic of the source is a `None` result.

Where the code and its own words differ, the model follows the code:

- `internal/risk/score.go:43-46` calls the trust chain depth the longest chain; it is the greatest shortest
  distance (`Reach.DepthIsNotLongestChain`). It never exceeds the longest chain (`Reach.DepthIsAChain`) and is the
  longest chain where no pivot makes a detour (`Reach.DepthIsLongestChain`); `Reach.ChainTestIsRightIff` says exactly
  when the scorer's test finds a two-pivot chain.
- `internal/graph/graph.go:120-121` lists six capability edge types; the search also follows federation and permission
  edges (`GraphEngine.Graph.Reachable`).
- `migrations/0006_alerting.sql:1-4` says a finding alerts at most once; a failed mark makes it alert again
  (`Alerts.SentTwice`, with the exact count in `Alerts.RunIsSafe` and the exact condition in `Alerts.AtMostOnceIff`).
- `internal/graph/graph.go:246-248` ranks by impact, but the search stops at three times the limit, before
  ranking. `Attack.RankedIsBestOfAll` says exactly when the result is still the best of all targets,
  `Attack.TopAgreesWithBlast` exactly when its first path agrees with the blast radius, and `Attack.CutOffLosesJewel`
  shows a crown jewel lost.
- `internal/collectors/aws/tags.go:136-137` describes a wildcard matcher; it is one exactly for subjects without a
  star (`Glob.SafeSubjects`).
- `internal/ratelimit/ratelimit.go:33-34` promises a per-window limit; a window of whole days breaks it
  (`RateLimit.SafeWindows`) and keeps only the double bound (`RateLimit.AnyIntervalAtMostTwice`).
- `internal/models/models.go:77-85` derives an id from kind and external id, while identities are keyed by provider and
  external id (`internal/store/identity.go:36`): a second provider's identity is refused. `Collector.NoIdentityRefusedIff`
  says exactly when that happens, `Collector.NoRoleRefusedIff` and `Collector.NoRepositoryRefusedIff` for the other named ids.
- `internal/risk/weights.go:56-70` accepts negative weights, although the risk delta of a plan is floored at zero;
  `Remediation.NeverRaisesIff` says exactly which weights let a remediation raise the weighted sum.
- `internal/collectors/aws/policy.go:244-255` is named for lower-casing but only removes empty and repeated strings;
  what it keeps, it keeps as spelt (`Policy.DedupeKeepsEach`).

## Model

| member | source | states |
|---|---|---|
| Walks.BallIsWithin | internal/graph/graph.go:122-148 | The rings computed from a start hold exactly the ids some walk of that length or less reaches |
| Walks.DistanceIsShortest | internal/graph/graph.go:142 | The first ring holding an id is the length of its shortest walk |
| Layers.UptoIsBall | internal/graph/graph.go:130-146 | The breadth-first order to depth d lists exactly the ids within d steps; layer d those at distance exactly d |
| Layers.UptoTrails | internal/graph/graph.go:278-289 | Every walk recorded by the search is simple, uses stored edges of the followed kind, and is as short as any |
| Layers.UptoOrdered | internal/graph/graph.go:258-289 | The search order begins at the start, never repeats an id and never comes nearer again |
| Frontier.Advances | internal/graph/graph.go:261-289 | Taking the queue's head and scanning its edges keeps the queue in step with the layered order |
| Frontier.Finishes | internal/graph/graph.go:130-147 | When the queue is empty everything within the hop limit has been visited, once, in layered order |
| Reach.ReachIsExact | internal/graph/graph.go:117-148 | An id other than the start is reached iff a capability walk within the limit leads to it, at its shortest length, known node or not |
| Reach.ReachGrows | internal/graph/graph.go:122-148 | Raising the hop limit keeps every reached id at its distance and adds only farther ones |
| Stored.ReachMapReaches | internal/graph/graph.go:117-155 | Reachability in the adjacency lists is reachability along the stored edges, whatever the types followed |
| Stored.DistanceIsNearest | internal/graph/graph.go:130-148 | Distance in the step relation is the length of the shortest walk of stored edges |
| GraphEngine.Graph.Reachable | internal/graph/graph.go:122-155 | The queue search terminates on every graph, cyclic or not; an id other than the start is in the result iff a walk of at most maxHops stored edges of the eight capability types leads to it, at the length of the shortest |
| GraphEngine.Graph.TrustChainDepth | internal/graph/graph.go:170-198 | The result is the greatest shortest distance, within the limit, along stored edges of the four pivot types, and every smaller distance is realised |
| Reach.TrustReachIsReach | internal/graph/graph.go:150-198 | Whatever a pivot chain reaches is in the blast radius, no later |
| Reach.DepthTwoMeans | internal/risk/score.go:271-274 | The depth is two or more iff some two-pivot chain ends where no single pivot does |
| Reach.DepthIsAChain | internal/graph/graph.go:170-198 | Some chain that visits no id twice has exactly as many pivots as the depth |
| Reach.ChainsAreShortestIff | internal/graph/graph.go:170-198 | All chains within the hop limit are shortest walks iff no pivot leads anywhere but one step farther or back to an id no shortest walk avoids |
| Reach.DepthIsLongestChain | internal/risk/score.go:43-46 | Where no pivot makes such a detour, the depth is the longest chain |
| Reach.ChainTestIsRightIff | internal/risk/score.go:271-274 | The depth is two or more exactly when a two-pivot chain exists, iff there is none or one ends where no single pivot does |
| Reach.DepthIsNotLongestChain | internal/risk/score.go:43-46 | A concrete graph whose longest chain has two pivots and whose depth is one |
| Impact.CountRollsUp | internal/graph/graph.go:212-234 | Each turn of the roll-up loop extends an exact roll-up of the ids handled so far |
| Impact.RollUpIsUnique | internal/graph/graph.go:209-236 | The roll-up is determined by what is reached, so map order cannot change it |
| Stored.RollUpTotals | internal/graph/graph.go:209-236 | The roll-up counts the reached known resources, the high ones and the crown jewels, and says how near the nearest jewel is and whether a reached role is admin or privileged |
| GraphEngine.Graph.ComputeBlastRadius | internal/graph/graph.go:209-236 | Counts, nearest crown jewel and admin flag are those of the nodes reached along stored capability edges, which are admin when they are roles of level admin or privileged |
| Attack.RankedPathIsSound | internal/graph/graph.go:249-303 | Every returned path is a simple shortest walk of stored capability edges from the start to another node that is a target of the stated impact |
| Attack.AllTargetsComplete | internal/graph/graph.go:264-274 | The targets met are exactly the reachable nodes with an impact; ids that are no nodes never count |
| Attack.AllTargetsOrdered | internal/graph/graph.go:261-289 | Targets are met nearest first, each once |
| Attack.PrefixIsGathered | internal/graph/graph.go:270-272 | Stopping at the quota leaves exactly the first targets of the full order |
| Attack.RankedIsBest | internal/graph/graph.go:292-302 | The result holds min(gathered, limit) distinct targets in rank order, and no gathered path left out ranks before one returned |
| Stored.RankedAreAttackPaths | internal/graph/graph.go:246-315 | The ranked paths follow stored edges of the eight types, end at crown-jewel or high resources or at admin or privileged roles, put jewels first and shorter paths first among equals, and miss no target unless the limit is reached |
| Attack.TopIsJewel | internal/graph/graph.go:292-302 | The first path has crown-jewel impact iff some gathered target has |
| Attack.RankedIsBestOfAll | internal/graph/graph.go:246-303 | The result is the best of all targets, not only of those gathered, iff nothing is cut, enough jewels come before the cut, or none comes after it |
| Attack.TopAgreesWithBlast | internal/graph/graph.go:210-303 | The first path and the blast radius agree on a crown jewel or admin role iff the quota is not used up by lesser targets first |
| Attack.NearestJewelIsShortestPath | internal/graph/graph.go:220-225 | With no more targets than the limit, the nearest crown jewel is the fewest hops of a returned path to one |
| Attack.CutOffLosesJewel | internal/graph/graph.go:270-272 | A concrete graph where limit 1 returns a high target and hides a reachable crown jewel |
| GraphEngine.Graph.AttackPaths | internal/graph/graph.go:249-303 | The queue search with early stop, sort and trim returns the ranked targets defined over the layered order and panics exactly for a negative limit; over the stored edges, they are at most limit simple shortest walks to different targets in rank order, and all the targets within reach when fewer than limit |
| StableSort.SortProperties | internal/graph/graph.go:292-298 | The sort orders by key, loses nothing and keeps equal keys in their old order |
| StableSort.StableOrderIsUnique | internal/graph/graph.go:292-298 | Only one arrangement is sorted and stable, so the result does not depend on the sorting algorithm |
| Neighbors.VicinityBound | internal/graph/graph.go:90-113 | One more round shows exactly the known ends of the edges around the ids shown so far |
| Stored.ViewIsNeighborhood | internal/graph/graph.go:77-115 | What the rounds show, said over walks along stored edges in either direction through known nodes |
| GraphEngine.Graph.Neighborhood | internal/graph/graph.go:81-115 | The view lists each known node at most depth undirected steps away once, and of the stored edges with an end fewer than depth steps away exactly one per source, type and destination |
| GraphEngine.Graph.ShowAll | internal/graph/graph.go:93-110 | Showing an adjacency list adds its edges by key and its unseen ends, and nothing twice |
| GraphEngine.Graph.AddNode | internal/graph/graph.go:54-59 | A node replaces the one with its id, and a nil entity is never indexed |
| GraphEngine.Graph.AddEdge | internal/graph/graph.go:67-70 | Both adjacency lists stay the stored edges, in order of arrival, by source and by destination |
| GraphEngine.Graph.NodeIDForEntity | internal/graph/graph.go:61-65 | An entity that resolves does so to a known node, and the nil entity never does |
| GraphEngine.Graph.FromModels | internal/graph/load.go:12-39 | The graph holds every edge row in order, for each id its last node row, and the entity index of the rows |
| GraphEngine.LastRowWins | internal/graph/load.go:14-27 | The last row of an id is the one kept, field by field |
| GraphEngine.LastRowResolves | internal/graph/graph.go:54-59 | An entity resolves iff some row names it and it is not nil, and then to the node of its last row |
| Percentile.NearestRank | internal/graph/load.go:123-140 | The exchange sort leaves an ascending permutation and the value at the rank index is returned, always in range |
| Percentile.QuantileIgnoresOrder | internal/graph/load.go:111-121 | The percentile does not depend on the order of the values |
| Percentile.QuantileIsOrderStatistic | internal/graph/load.go:123-140 | At least idx+1 values are at or below the percentile and at least n-idx at or above it |
| Percentile.RankIsNearest | internal/graph/load.go:135-139 | The rank is the nearest integer to p of the way up, halves up, and the last one beyond that |
| Percentile.QuantileSplits | internal/graph/load.go:123-140 | More than p(n-1)+1/2 values are at or below the percentile and at least n-p(n-1)-1/2 at or above it |
| GraphEngine.Graph.ReachableCountP90 | internal/graph/load.go:109-121 | The baseline is the same for every order in which the identities are visited |
| Glob.AnswerIsMeaning | internal/collectors/aws/tags.go:136-161 | For every pattern and every star-free subject the matcher decides the recursive wildcard meaning |
| Glob.ForgettingIsSafe | internal/collectors/aws/tags.go:146-152 | Whatever the previous star could still match, the star just reached can match too |
| Glob.GlobMatch | internal/collectors/aws/tags.go:138-161 | The loop terminates and returns the wildcard meaning for star-free subjects |
| Glob.StarredSubjectFails | internal/collectors/aws/tags.go:143-145 | For every subject holding a star there is a pattern that matches it in meaning and is refused |
| Glob.SafeSubjects | internal/collectors/aws/tags.go:138-161 | All patterns are decided rightly against a subject iff it holds no star |
| Resolver.UnderIffLiteral | internal/collectors/aws/tags.go:98-103 | Everything a pattern matches lies under a prefix iff its literal part does |
| Resolver.ServiceIsThirdField | internal/collectors/aws/tags.go:106-117 | The service of an ARN is its third field in lower case, whether another follows or not |
| Resolver.NoThirdField | internal/collectors/aws/tags.go:106-117 | An ARN of fewer fields has no service; a lone star is any |
| Resolver.ServiceIsPrefix | internal/collectors/aws/policy.go:215-220 | An action's service is what stands before its first colon |
| Resolver.CoversMeans | internal/collectors/aws/tags.go:119-134 | Actions apply to a service iff it is empty or any, or one of them is everything or names that service |
| Strings.ToLowerMeans | internal/collectors/aws/tags.go:106-134 | Lower-casing moves the 26 capitals by 32 places and leaves everything else |
| Resolver.SafeTags | internal/collectors/aws/tags.go:87-104 | Every pattern reaches a tagged resource exactly when it matches it or matches only children of it, iff the resource's name holds no star |
| Resolver.CritResolver.Set | internal/collectors/aws/tags.go:31-39 | A tag is kept at its highest level and no recorded level falls |
| Resolver.MaximumIsHighest | internal/collectors/aws/tags.go:48-69 | There is exactly one highest level among the tags a binding can act on |
| Resolver.HighestIsMonotone | internal/collectors/aws/tags.go:52-69 | More or higher tags never lower a binding's level |
| Resolver.CriticalityFor | internal/collectors/aws/tags.go:52-69 | Whatever order the map is read in, the result is low or the level of a tag that the resource reaches and the actions cover, and no such tag ranks higher; a missing resolver elevates nothing |
| Policy.BindingComesFrom | internal/collectors/aws/policy.go:149-162 | Bindings are exactly one kind per allow statement and non-empty resource |
| Policy.CrownJewelOnlyByTag | internal/collectors/aws/policy.go:149-155 | A binding is a crown jewel iff a resource tagged one is within reach of its URN and actions; actions alone never make it one |
| Policy.BindingIsMonotone | internal/collectors/aws/policy.go:152-155 | More tags raise a binding's criticality only, and change nothing else |
| Policy.BindingLevel | internal/collectors/aws/policy.go:149-162 | A binding's level is the higher of what the actions imply and what a tag within reach declares; its URN, effect and actions are those of the statement |
| Policy.DedupeKeepsEach | internal/collectors/aws/policy.go:244-255 | Deduplication keeps each non-empty action once |
| Policy.ActionsLevel | internal/collectors/aws/policy.go:129-147 | A statement's actions are high iff one controls everything or a data service over all resources, else medium iff one writes to a data service, else low |
| Policy.DocumentsTotalled | internal/collectors/aws/policy.go:107-147 | The sums of the statements are the counts and flags of the allowed actions and resources of all documents that decode |
| Policy.GradeDescribes | internal/collectors/aws/policy.go:164-177 | The grade is the strongest of admin, privileged, write and read that an allowed action calls for |
| Policy.AnalyzePolicies | internal/collectors/aws/policy.go:107-177 | Over the allowed actions and resources of the documents that decode: admin iff one action is everything or all of IAM, else privileged iff one escalates, else write iff one writes, else read; the escalation flag whatever the level; the three counts |
| Findings.FindingRepo.Upsert | internal/store/findings.go:17-38 | A finding lands on its open row or a new one, and one open row per fingerprint is kept; column by column, what a repeat refreshes and keeps, what a new row holds, and that every other row stays |
| Findings.FindingRepo.UpdateStatus | internal/store/findings.go:124-129 | Status, assignee and notes are the given ones and the rest stays; a change that would open a second row for a fingerprint fails, exactly then, and changes nothing |
| Findings.FindingRepo.ClaimUnalerted | internal/store/findings.go:145-176 | The claim is the oldest open unalerted rows of the severities, up to the limit, oldest first |
| Findings.ClaimIsOldest | internal/store/findings.go:152-159 | The claimed rows are open, unalerted, of the severities, distinct and oldest first; one left out means a full batch none younger |
| Findings.FindingRepo.MarkAlerted | internal/store/findings.go:178-185 | Exactly the given rows are stamped, and only their stamp changes |
| Alerts.StepKeepsInv | cmd/worker/alerts.go:16-49 | Every step of detector, analyst or sweeper keeps the table's index, the batch in flight and the send count in order |
| Alerts.RunIsSafe | cmd/worker/alerts.go:16-49 | Over every run: one open row per fingerprint, a stamped row was sent, and a row's sends are its failed marks plus one iff it is stamped or about to be |
| Alerts.AtMostOnceIff | migrations/0006_alerting.sql:1-4 | From every reachable state, all continuations without a failed mark of the row keep it at one send at most iff no mark of it has failed so far |
| Alerts.SentTwice | cmd/worker/alerts.go:40-43 | A run with one failed mark in which a row is sent twice |
| Alerts.ClaimLeavesOut | internal/store/findings.go:152-159 | A claim that passes over a waiting open row is a full batch of rows ahead of it |
| Alerts.StepTowards | cmd/worker/alerts.go:16-49 | Until it is sent a waiting row stays waiting, and each good sweep clears a hundred rows ahead of it |
| Alerts.NoStarvation | cmd/worker/alerts.go:16-49 | From every reachable state an unalerted row that stays open with k rows ahead is sent within k/100+1 good sweeps, one more if a batch without it is under way, however others interleave |
| Alerts.RunAlerts | cmd/worker/alerts.go:16-49 | One sweep is a legal run of the protocol; only a sent and marked batch changes the table |
| Risk.CompositeGrows | internal/risk/score.go:99-103 | Raising factors whose weights are not negative lowers neither the weighted sum nor the composite |
| Signals.PrivilegeMeans | internal/risk/score.go:114-160 | Privilege is the bounded sum of its six signals, each with its condition over roles and bindings and its cap |
| Signals.RoleSums | internal/risk/score.go:122-132 | The three totals over roles add up their columns |
| Signals.ExposureMeans | internal/risk/score.go:161-203 | Exposure is the bounded sum of its signals: public else private, verified, a static key without expiry, a key older than 365 days |
| Signals.FreshnessMeans | internal/risk/score.go:205-228 | Seen within 90 days and rotated within 180 scores 0; seen earlier, or never though created over 30 days ago, and rotated earlier or never score the matching points, bounded |
| Signals.FreshnessAges | internal/risk/score.go:205-228 | Moving the last use or rotation back never lowers freshness when the points are not negative |
| Signals.UsageMeans | internal/risk/score.go:230-247 | Usage is the bounded sum of the points of the anomalies present |
| Signals.OneAnomaly | internal/risk/score.go:230-247 | One anomaly alone scores its own bounded points |
| Signals.UsageGrows | internal/risk/score.go:230-247 | More anomalies never lower usage when the points are not negative |
| Signals.TrustMeans | internal/risk/score.go:249-290 | Every trust edge adds the points of its guard, account, principal and type, a chain of two pivots its own; the sum is bounded |
| Signals.BlastMeans | internal/risk/score.go:294-321 | Blast radius is the bounded sum of the nearest jewel, capped high counts, the excess over the baseline and reach of an admin |
| Signals.CompositeMeans | internal/risk/score.go:99-103 | The composite is the weighted sum of the six factors, bounded and rounded to the nearest, halves up |
| Signals.MissingCountsNothing | internal/risk/weights.go:73-78 | A weight or signal that is not configured counts for nothing |
| Remediation.RemedyLowers | internal/remediate/remediate.go:97-152 | When no factor that a remediation can lower has a negative weight, no remediation raises the sum or the composite, and decommissioning lowers them most |
| Remediation.NeverRaisesIff | internal/risk/weights.go:56-70 | No remediation raises any identity's weighted sum iff every factor with a removable signal worth points has a weight that is not negative |
| Remediation.RoundingHidesNegative | internal/risk/score.go:103 | Accepted weights that break that condition and raise a sum but, through rounding, never a composite |
| Effects.TouchesFourOnly | internal/remediate/remediate.go:97-152 | No remediation changes freshness, usage, the baselines, the chain depth or the clock |
| Effects.ClearKeysLeaves | internal/remediate/remediate.go:100 | Without credentials the exposure is what the repositories show, and three factors stay |
| Effects.ClearExposuresAndKeysLeaves | internal/remediate/remediate.go:99 | The exposure is 0 and three factors stay |
| Effects.DecommissionLeaves | internal/remediate/remediate.go:102-109 | Privilege, exposure and blast radius are 0, and of the trust only the chain's points are left |
| Effects.LeastPrivilegeKeeps | internal/remediate/remediate.go:111-121 | The kept roles are those neither admin nor privileged, without their wildcards |
| Effects.LeastPrivilegeBinds | internal/remediate/remediate.go:122-130 | The kept bindings are those on no crown jewel |
| Effects.LeastPrivilegeScore | internal/remediate/remediate.go:111-132 | What is left of privilege is what the other roles can escalate and hold |
| Effects.LeastPrivilegeLeaves | internal/remediate/remediate.go:111-132 | Exposure and trust stay and the blast radius is 0 |
| Effects.GuardTrustKeeps | internal/remediate/remediate.go:134-147 | Every edge keeps its type and its other conditions and has a guard |
| Effects.GuardTrustLeaves | internal/remediate/remediate.go:134-147 | The trust score is that of the signals other than the missing guard, and three factors stay |
| Effects.BreakTrustLeaves | internal/remediate/remediate.go:149-152 | Of the trust only the chain's points are left, the blast radius is 0, privilege and exposure stay |
| Scoring.Score | internal/risk/score.go:82-112 | The factor loops compute the six factor scores and the composite of the facts the input holds, which `Signals` spells out |
| Scoring.Input.Clone | internal/remediate/remediate.go:154-163 | The copy holds the same facts in slices of its own |
| Scoring.GuardEdges | internal/remediate/remediate.go:134-147 | Guarding builds new edges, each with a new condition map that keeps every other entry |
| Scoring.Mutate | internal/remediate/remediate.go:97-152 | A mutation changes the facts as its remediation says by assigning fields of its own input only |
| Scoring.Recommend | internal/remediate/remediate.go:75-95 | The plans are those of the catalog, and the caller's input, slices and condition maps are unchanged |
| Scoring.CatalogOffers | internal/remediate/remediate.go:28-70 | Which actions are offered against which finding, in order of preference |
| Scoring.ActionMeans | internal/remediate/remediate.go:28-70 | An action simulates the same change whatever finding it is offered against |
| Scoring.PreferredCuresGrants | internal/remediate/remediate.go:28-70 | The preferred remediation leaves none of the exposures, keys, grants or identity its detector flags |
| Scoring.PreferredCuresTrust | internal/remediate/remediate.go:28-70 | Nor an unguarded or wildcard trust edge |
| Scoring.PreferredCuresBlast | internal/remediate/remediate.go:28-70 | Nor a blast radius |
| Scoring.AnomaliesStay | internal/remediate/remediate.go:66-69 | Against anomalies the only plan changes no fact |
| Scoring.PlansAccountForRisk | internal/remediate/remediate.go:82-92 | Under that condition, for the current composite, risk after plus delta is the current risk for every plan, and no plan saves more than decommissioning |
| Scoring.NegativeWeightBreaksAccounting | internal/risk/weights.go:56-70 | Weights that pass validation with a negative one, for which a plan raises the risk and the floor hides it |
| Jwks.KeysAreLastUsable | internal/auth/jwks.go:92-100 | A kid's key is the last usable RSA entry with that kid |
| Jwks.ReadKeys | internal/auth/jwks.go:92-100 | The loop builds exactly that key set |
| Jwks.Exponent | internal/auth/jwks.go:160-163 | The loop computes the big-endian exponent modulo the machine word |
| Jwks.ShortExponentExact | internal/auth/jwks.go:160-163 | Up to eight bytes the word holds the exponent exactly |
| Jwks.FirstByteWeighsMost | internal/auth/jwks.go:160-163 | The first byte weighs most: a factor of 256 for each byte after it |
| Jwks.UsableMeans | internal/auth/jwks.go:92-163 | An entry is usable iff it is an RSA key whose fields decode and whose exponent is not zero in the word |
| Jwks.StepKeepsInv | internal/auth/jwks.go:47-108 | Every locked step keeps each call justified by some past content of the cache |
| Jwks.AnswersWereCached | internal/auth/jwks.go:45-69 | Under any interleaving a call answers with what the cache held for its kid at an instant during the call, and no installed set is empty |
| Jwks.UnfetchedLooksInTime | internal/auth/jwks.go:47-58 | Under any interleaving a call that returns without a fetch of its own looked less than ttl after the content it read was fetched |
| Jwks.OnlyInstallsChange | internal/auth/jwks.go:71-108 | Lookups and failed fetches change no content of the cache |
| Jwks.Provider.Refresh | internal/auth/jwks.go:71-108 | A refresh installs a non-empty set or leaves keys, time and endpoint as they were |
| Jwks.Provider.KeyByID | internal/auth/jwks.go:47-69 | A key cached less than ttl ago is the answer and nothing changes; otherwise a refresh that can succeed does, and the answer is the published key or none; a lone call is a legal run of the concurrent protocol |
| RateLimit.Limiter.Allow | internal/ratelimit/ratelimit.go:35-52 | A request moves the counter of its key and its window's time of day, a new or expired one to one with a fresh expiry, changes no other, and is judged by it, with exactly the rest of the limit remaining; it is let through untouched when the counter cannot be moved, and leaves an unexpiring counter when only the expiry fails |
| RateLimit.LabelIsTimeOfDay | internal/ratelimit/ratelimit.go:39 | A bucket is labelled with the local time of day, to the second, at which the instant's window starts |
| RateLimit.RunIsExact | internal/ratelimit/ratelimit.go:39-46 | After any run every counter read in its own window holds at least the requests of that window, and exactly these when every expiry was set |
| RateLimit.AlignedWindowIsExact | internal/ratelimit/ratelimit.go:33-52 | Each aligned window admits at most the limit per key, and exactly min(requests, limit) when every expiry was set |
| RateLimit.AnyIntervalAtMostTwice | internal/ratelimit/ratelimit.go:33-52 | Any interval of one window length admits at most twice the limit, whatever the window |
| RateLimit.SafeWindows | internal/ratelimit/ratelimit.go:39 | The quota holds for all runs iff the limit is at most one or the window is no whole number of days |
| RateLimit.QuotaUnderFailures | internal/ratelimit/ratelimit.go:40-43 | When counters cannot be moved for some requests, both bounds are exceeded by no more than those requests |
| Upserts.UpsertAll | internal/collectors/collector.go:88-160 | The loop stores every record that is not refused and counts them |
| Upserts.RowsPersist | internal/store/identity.go:18-20 | No upsert removes a row or changes its id or frozen columns |
| Upserts.LastWriteWins | internal/store/misc.go:95-107 | Refreshed columns hold the last record's values |
| Upserts.FirstWriteStays | internal/store/misc.go:95-107 | Id and frozen columns of a new row stay those of the first record of its key |
| Upserts.NothingRefusedIff | internal/store/identity.go:21-54 | For every table and records, nothing is refused iff the first records of the new keys have distinct ids that no row has |
| Upserts.KeysEverSeen | internal/store/misc.go:157-160 | When nothing is refused there is one row per distinct key ever seen |
| Upserts.ReplayIsIdempotent | internal/collectors/collector.go:86-160 | Storing the same records again changes nothing but stamps, with repeats and refusals among them |
| Collector.CollectingTwiceIsOnce | internal/collectors/collector.go:86-160 | Collecting the same result twice leaves all nine tables as once did, up to stamps |
| Collector.Store.Run | internal/collectors/collector.go:86-160 | A run applies every list of the result to its table, in order, and counts the records stored |
| Collector.DrawnCounted | internal/collectors/collector.go:88-160 | Of the six tables with drawn ids every record is stored and counted, of the named ones those not refused |
| Collector.NoIdentityRefusedIff | internal/store/identity.go:17-36 | In any run, into the table any earlier runs left, every identity is stored iff none that opens a row shares kind and external id with a row or with another that opens one |
| Collector.SecondProviderRefused | internal/store/identity.go:24-36 | A later run of a second provider loses its identity of a stored kind and external id, and the table stays as it was |
| Collector.NoRoleRefusedIff | internal/store/misc.go:88-114 | Every role is stored iff none that opens a row shares its external id with a row or with another that opens one |
| Collector.NoRepositoryRefusedIff | internal/store/misc.go:272-289 | The same for repositories and their provider and external id joined by a colon |
| Columns.NaturalKeys | internal/store/misc.go:20-302 | Records of the seven named tables share a row iff they agree in the natural key of their table |
| Columns.NaturalEnds | internal/store/misc.go:150-206 | Trust edges and bindings share a row iff their ends, missing ones included, and their type or effect agree |
| Columns.DataRefreshed | internal/store/misc.go:20-290 | After a pass the refreshed columns of five tables are those of the last record of the key |
| Columns.IdentityRefreshed | internal/store/identity.go:36-54 | After a pass the refreshed columns and the stamp are those of the last identity of its provider and external id |
| Columns.TrustEdgeRefreshed | internal/store/misc.go:150-164 | The same of trust edges, column by column |
| Columns.BindingRefreshed | internal/store/misc.go:193-206 | The same of bindings, column by column |
| Columns.IdentityFrozenColumns | internal/store/identity.go:17-54 | A new identity's id is its own or the named one, and its kind, account, creation and source stay those of its first record |
| Columns.CredentialFrozenColumns | internal/store/misc.go:20-37 | The columns of a credential that stay those of its first record |
| Columns.SecretFrozenColumns | internal/store/misc.go:65-86 | The same of secrets |
| Columns.RoleFrozenColumns | internal/store/misc.go:88-114 | The same of roles, with their id |
| Columns.WorkloadFrozenColumns | internal/store/misc.go:234-248 | The same of workloads |
| Columns.RepositoryFrozenColumns | internal/store/misc.go:272-289 | The same of repositories, with their id |
| Columns.ExposureFrozenColumns | internal/store/misc.go:293-302 | The same of exposures |
| Detect.MergedIsRight | internal/detect/detect.go:68-92 | The result is exactly the first finding of each fingerprint, none twice, most severe first, detector order within a severity |
| Detect.MergedInOrder | internal/detect/detect.go:68-92 | With the four severities ranked one by one: nothing outranks what stands before it, and the findings of each severity keep their order |
| Detect.AllCompleted | internal/detect/detect.go:70-85 | Every finding gets its fingerprint and the missing times, and keeps its other fields |
| Detect.Run | internal/detect/detect.go:68-92 | The nested loops and the sort produce that merge: never a less severe finding before a more severe one, no fingerprint twice, and within a severity the detectors' order |
| Histogram.HourlyBuckets | internal/detect/anomaly.go:289-305 | Each bucket counts the events of its hour, counted back from the last event's hour |
| Histogram.BucketCounts | internal/detect/anomaly.go:289-305 | In hours since the epoch, the bucket k from the end counts the events k hours before the last one's |
| Histogram.HistogramConserves | internal/detect/anomaly.go:289-305 | The buckets together hold exactly the events of their window, the last those of the last hour |
| Histogram.HistogramLosesNothing | internal/detect/anomaly.go:158-164 | For ascending times a window that covers the first event loses none |
| Histogram.MeanVariance | internal/detect/anomaly.go:307-322 | The loops compute mean and variance, zero for no values |
| Histogram.GapsExpand | internal/detect/anomaly.go:307-322 | The summed squared distances are the squares, less twice the mean times the total, plus the mean squared per value |
| Histogram.ZeroVarianceIffEqual | internal/detect/anomaly.go:165-173 | The variance is zero iff all counts are equal, so the score divides by zero nowhere |

## Left out

- Queries, JSON, YAML and URL decoding, hashing, RSA, HTTP, NATS, metrics, tracing and logging: unseen libraries; their outcomes are parameters.
- Foreign-key errors: a collected record that refers to a missing row is assumed to be stored.
- Usage-event insertion: event ids are random, so replaying events adds rows.
- Row paging of lists; the lists a job is given are inputs.
- Urgency, severity bands and signal names of a score: urgency is not monotone, since removing trust can remove its negative term.
- The usage-spike threshold itself: it compares with a square root; the model stops at the variance.
- Floating-point rounding in weights, means and the percentile index.
- Tag spelling and the tagging API pages: strings and I/O with no hard property.
- Narratives, titles, evidence and exported formats.
- Graph nodes are values: two graphs sharing one node object are not modelled. Edge attributes are not modelled.
- Lower-casing beyond ASCII letters, and characters of more than one byte.
- A change of the local time offset during a run of the limiter, windows that are not whole seconds, and a missing limiter.
- Alerts.RunAlerts: shows one sweep without steps of others in between; the interleavings are in the state machine of `Alerts`.
- Jwks.Provider.KeyByID: shows one caller; concurrent callers are in the state machine of `Jwks`, which reads the endpoint atomically.
- Scoring.PlansAccountForRisk: states that the sign condition suffices; it is exact for the sum before rounding (`Remediation.NeverRaisesIff`), but not for the composite, where a small negative share may never reach a rounding edge (`Remediation.RoundingHidesNegative`).
- Remediation.NeverRaisesIff: takes removable signal points that are not negative, as `docs/RISK_MODEL.md` lists them; validation does not check points. Weights under further keys, which validation sums and the score ignores, are not modelled.
- Collector.Store.Run: counts the nine lists; usage events, which the source also counts, are left out.
- Reach.DepthIsLongestChain: gives a sufficient condition, because an exact one would have to find the longest chain itself; `Reach.ChainsAreShortestIff` makes the condition exact for the stronger property that all chains are shortest.
