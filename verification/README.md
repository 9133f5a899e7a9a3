# PerspectiveGraph, modelled in Dafny

PerspectiveGraph keeps a graph of assets and of the ways an attacker can move between them,
finds the routes from exposed nodes ("seeds") to what must be protected ("crown jewels"), and
says how likely they are and what a fix would change. This project models the parts of it whose
correctness is an argument rather than a reading, and proves that argument.

`dafny verify dfyconfig.toml` checks the whole project.

## What is modelled

**The attack-path engine.** `Heap` is the hand-written binary heap, run in place by the class
`MinHeap`. `Search` is Dijkstra with lazy deletion as a function from state to state, with the
invariant of one turn and what an emptied queue means; `AttackPath` and `KShortest` run it in
place, the first over a scratch reused from seed to seed, the second inside Yen's algorithm.
`Chain` is the score of a route, in which hops resting on one cause count once, at the weakest, and
`Causes` says, of the edges themselves, which hops those are and which edges a trial draws together.
`CriticalPaths` is the pass over all seeds and jewels. `Paths`, `PathKeys`, `Yen` and `KShortest`
are the k best loopless routes between two nodes.

**The simulation.** `Compromise` says, of the snapshot alone, which jewels a trial compromises.
`MonteCarlo` compiles the snapshot to indices, `Walks` is one trial as a state machine over marks,
and the class `Trials` runs it over arrays stamped with a generation instead of being cleared.
`Risk` counts trials, `WhatIf` compares a graph with the graph after a cut over the same trials,
and `Agreement` relates the simulation to the path list.

**Attacker profiles.** `Anchor`, `Newton` and `Solver` find the one shift that makes the profiles
average back to an edge's probability, and say how near it comes when it stops; `Tangent` is why
its steps are Newton's. `Association`, `Positions`, `Mixture` and `Profiles` place a route's mixture
score between its own score and its weakest hop, for what is returned to within a tolerance that
`Tolerance` carries from the hops to the score; `OneCause` says exactly when the band fails for hops
that share a cause; `ProfileRisk` runs the simulation once per profile.

**Ingest.** `Splitter` cuts an event into messages. `Batch` is the protocol by which replicas that
share a key-value bucket, under redelivery, crashes, failures and key expiry, agree that a batch
is applied and sweep what its complete snapshots omit. It is a step relation over messages, keys
and the place each replica has reached, and its theorems are about every run; `Sweeps` holds those
about what the sweeps reach.

**The audit chain.** `Audit` is the chain, its table, its checkpoint and its verifier; `AuditFile`
is the same chain in a file, sealed or plain.

**The snapshot cache.** `SnapshotCache` is the resident graph patched by timestamped deltas, beside
a store that other replicas write to and remove from.

**Three guards.** `QueryGuard` is the memoised cost of a GraphQL document against its full fragment
expansion, `Replay` the window in which a signed request is accepted, and `StatusReporter` the
commit-status reporter against what the forge was told.

`Options`, `Sequences` and `Sorting` hold what the others share.

## What is taken as given

Where the program calls something the model cannot see, the model takes a function with the laws it
needs: `-ln` turns products into sums and reverses order; the exponential is positive and rises; the
geometric middle of a bracket lies in it; a serialised event is no smaller than any one of its
elements with the same other fields; the record hash and the signature are injective; what one
process sealed, another with its key unseals. What a text of fields is hashed as once it has been
read back is a function without a law: whether fields survive being read is a condition of the
theorems about the audit chain, not an assumption. Draws are an arbitrary function of the
trial and of what names the edge. Probabilities are real numbers. A transaction on the audit table
is atomic, and the shared bucket is a map whose keys each live a fixed time.

## Where the code and its documentation part

Some properties the comments promise hold only under a condition. Each is proved under that
condition, with an instance that shows the condition is needed.

- `kShortest` compares paths by their ids joined with ">". Where two loopless paths share such a key
  it can never list both (`KShortest.ClashLosesOne`); where none do, it is complete.
- The path list shows every way to reach a jewel except the one that leaves the jewel itself and comes
  back over a cycle; the simulation counts that one (`Agreement.SelfCycleIsUnlisted`).
- "Score ≤ mixture ≤ upper bound" holds when hops that share a cause share a basis. For a route on
  one cause it holds if and only if one hop is weakest for every profile of positive prior
  (`OneCause.OneCauseExactly`); with the bases "kev" and "heuristic" on one cause and no weight on
  the middle profile it fails (`OneCause.BasesMustAgree`). A single hop needs a probability inside
  the clamp (`Profiles.SingleHopIsClamped`).
- An honest audit table verifies if and only if every kept row's fields are read back as they were
  hashed (`Audit.HonestVerifies`). Two honest tables are therefore refused. Sealing turned on over
  rows written plain: the file reads both kinds of line, the table insists on sealed fields
  (`Audit.SealingTurnedOnIsRefused`). And a field with a byte that is no character, such as a request
  path ending in `%ff`: it is hashed as the escape of U+FFFD and read back as the character
  (`Audit.InvalidByteIsRefused`; for the file, `AuditFile.KeyedReaderAccepts`).
- "Exactly one replica" sweeps a batch as long as no replica takes longer between reading the total
  and creating the key than the batch took to its first sweep; for any longer, a second
  sweep can start (`Batch.DawdlingSweepsTwice`).
- The watermark is taken before the read so that no write slips through. It is compared with the
  event's own observation time, so a write stamped before the watermark still does until the next
  full read (`SnapshotCache.WriteArrivesExactly`, `SnapshotCache.LateWriteIsMissed`).
- A pass told that the graph was pruned reads it in full. If that read fails and the store keeps no
  removal epoch, nothing remembers the prune, and the next delta keeps what was removed
  (`SnapshotCache.FailedReadLingers`); with reads that succeed, or an epoch, it does not
  (`SnapshotCache.Passes`, `SnapshotCache.ExtraForcesFullRead`). Both stores the repository has keep
  an epoch.
- A v2 signature is accepted once by calls whose clock readings come in order. The clock is read
  before the lock is taken, so a call overtaken by a sweep can be accepted again
  (`Replay.OvertakenCallReplays`): exactly when a call since its last acceptance swept with a clock
  reading past the signature's window (`Replay.AcceptedAgainExactly`).
- A commit two tenants share has one status on the forge and two memories in the reporter
  (`StatusReporter.SharedCommitDisagrees`).
- An event with neither nodes nor edges that is larger than a message splits into nothing, without an
  error; `Splitter.SplitEvent` says so.

## Model

| member | source | states |
|---|---|---|
| `Heap.MinHeap.Push` | backend/internal/analyzer/attackpath.go:909-921 | Appends and sifts up in place; which cell ends where, ties included, is a function of the old list. |
| `Heap.MinHeap.Pop` | backend/internal/analyzer/attackpath.go:926-951 | Swaps root and last, sifts down over the rest and cuts the tail off, in place. |
| `Heap.PushHeaps` | backend/internal/analyzer/attackpath.go:908-921 | A push keeps a heap a heap, of exactly the old entries and the new one. |
| `Heap.PopHeaps` | backend/internal/analyzer/attackpath.go:923-951 | A pop yields an entry no other is below and leaves a heap of exactly the others. |
| `Search.TurnKeeps` | backend/internal/analyzer/attackpath.go:773-786 | One turn keeps the whole invariant of the search - heap, link tree, queue with stale entries, frontier, closed edges - and either drops a stale entry or settles one more node. |
| `Search.RunSound` | backend/internal/analyzer/attackpath.go:763-788 | The invariant holds after any number of turns from the start. |
| `Search.FinishedIsShortest` | backend/internal/analyzer/attackpath.go:763-808 | When the queue is empty, a node is recorded if and only if a walk reaches it, and its links spell a walk without a repeated node, at the recorded cost, which no walk undercuts. |
| `Search.RunIsUnique` | backend/internal/analyzer/attackpath.go:751-753 | The source and the adjacency alone settle distances and links. |
| `AttackPath.Dijkstra` | backend/internal/analyzer/attackpath.go:763-788 | The search over the reused scratch returns what a run from the source leaves, whatever the scratch held before. |
| `AttackPath.SearchIsRepeatable` | backend/internal/analyzer/attackpath.go:735-753 | A recycled scratch and a fresh one give the same distances and steps. |
| `AttackPath.TraceBack` | backend/internal/analyzer/attackpath.go:790-796 | Following the steps back ends at the seed, even across hops that cost nothing, and spells the recorded route backwards. |
| `AttackPath.Reconstruct` | backend/internal/analyzer/attackpath.go:790-808 | Reports a cheapest loopless walk from seed to jewel, with its nodes, steps and scores. |
| `AttackPath.ShortestIsLikeliest` | backend/internal/analyzer/attackpath.go:180-181 | The route of least cost is a route of largest product of hop probabilities. |
| `Graph.CostStandsForProduct` | backend/internal/analyzer/attackpath.go:662-682 | Along any walk the added-up cost is the conversion of the product of the hops. |
| `Graph.AdjacencyHoldsEdges` | backend/internal/analyzer/attackpath.go:662-682 | An out-edge is listed under a node exactly when the snapshot has the edge it stands for. |
| `Graph.LastListingCounts` | backend/internal/graph/store.go:25-31 | Of nodes listed under one id the last listing counts. |
| `Causes.DrawTogetherExactly` | backend/internal/analyzer/attackpath.go:537-565 | Two edges have one draw if and only if they rest on one weakness - a declared cause, or else the CVE an AFFECTS edge leads into, by its name or, unnamed, its id - or rest on none and are the same edge from, to and by type. |
| `Causes.OneChanceExactly` | backend/internal/analyzer/montecarlo.go:219-226 | Two edges of one probability open together in every trial, whatever the draws, exactly then: one weakness is one chance and two are two. |
| `Causes.OneWeaknessCountsOnce` | backend/internal/analyzer/attackpath.go:537-565 | Of two hops of a reported route on one weakness only the weaker counts in its score. |
| `Causes.LoneHopMultiplies` | backend/internal/analyzer/attackpath.go:456-488 | A hop on no weakness, or on one no other hop rests on, multiplies what the others score. |
| `CriticalPaths.PathsFromSeed` | backend/internal/analyzer/attackpath.go:265-279 | One best route for every other jewel the seed reaches, in jewel order, and none for the seed itself. |
| `CriticalPaths.DirectAccessPaths` | backend/internal/analyzer/attackpath.go:385-402 | Every held jewel once, however often the snapshot lists it. |
| `CriticalPaths.FindCriticalPaths` | backend/internal/analyzer/attackpath.go:188-260 | Every held jewel, and a best route from every seed to every other jewel it reaches: each once, nothing else, runtime-confirmed first and then by score; ties stay as collected, the held jewels first and then seed by seed and jewel by jewel in listing order. |
| `AttackPath.AssembleAttackPath` | backend/internal/analyzer/attackpath.go:410-454 | The score is the group-by form of the chain probability, the upper bound the weakest hop, or 1 without a hop. |
| `AttackPath.ScoreInBand` | backend/internal/analyzer/attackpath.go:456-464 | On every path the plain product is at most the score, and the score at most the upper bound, which is the probability of one of its hops and at most every one. |
| `Chain.ChainProbability` | backend/internal/analyzer/attackpath.go:465-488 | The nested loops compute the product of the uncaused hops times the weakest hop of each distinct cause. |
| `Chain.ScorePermutes` | backend/internal/analyzer/attackpath.go:456-464 | The score does not depend on the order of the hops. |
| `Chain.ScoreMonotone` | backend/internal/analyzer/attackpath.go:456-464 | The score never falls when a hop gets likelier. |
| `Chain.ScoreAtMostHop` | backend/internal/analyzer/attackpath.go:456-464 | No route is likelier than any one of its hops. |
| `Chain.ProductAtMostScore` | backend/internal/analyzer/attackpath.go:462-464 | The score is never below the plain product the search ranks by. |
| `Causes.SharedCountsOnce` | backend/internal/analyzer/attackpath.go:465-488 | Leaving out the likelier of two hops on one cause changes no score. |
| `Causes.LoneMultiplies` | backend/internal/analyzer/attackpath.go:465-488 | Leaving out a hop whose cause no other shares takes its probability out of the product. |
| `KShortest.NewWGraph` | backend/internal/analyzer/kshortest.go:28-54 | One edge per ordered pair that has any, and none of the pair's parallel edges is cheaper. |
| `Paths.Neighbors` | backend/internal/analyzer/kshortest.go:56-71 | The neighbours by weight and then id. |
| `Paths.NeighborListIs` | backend/internal/analyzer/kshortest.go:56-71 | The list holds each neighbour once, the lighter before the heavier and, at one weight, the smaller id before the larger. |
| `Paths.NeighborsAreReproducible` | backend/internal/analyzer/kshortest.go:56-71 | Whatever order the map is walked in, sorting gives the one neighbour list. |
| `KShortest.Shortest` | backend/internal/analyzer/kshortest.go:75-118 | A loopless path that avoids the removed nodes and edges and that no such path undercuts, or nothing exactly when there is none. |
| `Yen.LeavesSomewhere` | backend/internal/analyzer/kshortest.go:138-168 | A loopless path not yet accepted leaves the accepted ones right after one of their proper prefixes. |
| `Yen.SpurIsAllowed` | backend/internal/analyzer/kshortest.go:140-155 | Its remainder after that prefix uses no removed node and no removed edge, and the costs add up. |
| `Yen.SpurCompletes` | backend/internal/analyzer/kshortest.go:155-164 | What a spur search finds completes the root to a loopless path that leaves every accepted one there. |
| `KShortest.Spur` | backend/internal/analyzer/kshortest.go:140-168 | One spur node: at most one candidate is added, no key twice, and the root is covered from then on. |
| `KShortest.AcceptKeepsRanked` | backend/internal/analyzer/kshortest.go:169-179 | Accepting the first candidate keeps the list in order and keeps every path left out at least as costly. |
| `Sorting.StrLessIs` | backend/internal/analyzer/kshortest.go:172-177 | The order of names: at the first place where two differ the smaller character is first, and a beginning of a name before the name. |
| `KShortest.SortedTakesFirst` | backend/internal/analyzer/kshortest.go:172-178 | The head of the sorted candidates is as cheap as every other and, of those at its cost, has the least joined key. |
| `KShortest.KShortest` | backend/internal/analyzer/kshortest.go:127-182 | Loopless paths with different keys, at most k (one when k is not positive). In every round the path taken is, by cost and then by joined key, the first of all found and not yet taken. When keys tell paths apart: what is waiting beats every path left out, the list is in order of cost, no path left out is cheaper, and there are k of them or all there are. When they do not, never all of them. |
| `KShortest.ClashLosesOne` | backend/internal/analyzer/kshortest.go:382-394 | Where two loopless paths share a joined key, one of them can never be listed. |
| `PathKeys.PlainIdsTell` | backend/internal/analyzer/kshortest.go:382-394 | Ids without ">" are enough for keys to tell paths apart. |
| `PathKeys.SeparatorCanClash` | backend/internal/analyzer/kshortest.go:382-394 | With ">" inside an id two different routes can share a key. |
| `MonteCarlo.CompileGraph` | backend/internal/analyzer/montecarlo.go:201-258 | Ids and indices are inverse, every edge is compiled in place and filed exactly at its source, and seeds, jewels and the edge-only flag are each node's, once. |
| `Walks.ExpandKeeps` | backend/internal/analyzer/montecarlo.go:295-320 | Expanding the top of the stack keeps the walk's invariant: every mark justified by a route, every marked node expanded or waiting. |
| `Walks.EmptiedMarksReached` | backend/internal/analyzer/montecarlo.go:275-322 | With the stack empty, visited is exactly what is reachable over the open edges and hit exactly the edge-only jewels another reached node has an open edge into. |
| `Trials.ExpandShrinks` | backend/internal/analyzer/montecarlo.go:295-320 | Every expansion uses up one push: the walk ends. |
| `Trials.Trials.Begin` | backend/internal/analyzer/montecarlo.go:280-288 | A new generation marks nothing, also when the 32-bit counter wraps. |
| `Trials.Trials.Run` | backend/internal/analyzer/montecarlo.go:275-322 | One trial marks exactly what is reachable, whatever earlier trials left in the stamps. |
| `Trials.ReachedIsCompromised` | backend/internal/analyzer/montecarlo.go:324-330 | What `reached` answers for a jewel is whether the trial compromises it. |
| `Trials.Trials.AnyJewel` | backend/internal/analyzer/montecarlo.go:332-340 | Whether any jewel was compromised. |
| `Compromise.MoreOpenMoreCompromised` | backend/internal/analyzer/montecarlo.go:31-34 | Being able to cross more edges never compromises fewer jewels. |
| `Compromise.EdgeOrderIsIrrelevant` | backend/internal/analyzer/montecarlo.go:45 | The compromised jewels do not depend on the order of the edges. |
| `Compromise.NothingOpen` | backend/internal/analyzer/montecarlo.go:235-256 | With no edge open the attacker is at the nodes exposed to the internet, open to the public or with exposed credentials, and has compromised exactly the jewels of the last two kinds. |
| `Risk.SimulateRisk` | backend/internal/analyzer/montecarlo.go:370-446 | Unless the context is found done before a trial whose number 256 divides, the simulation's shares over the trials asked for, or 2000, are the trials' own counts, each jewel once, likeliest first and then by id; with no seed or no jewel it is empty. |
| `Risk.SimulationIgnoresEdgeOrder` | backend/internal/analyzer/montecarlo.go:27-45 | The whole result is a function of what the snapshot holds: listing its edges in another order gives an equal one. |
| `Risk.TotalIsSumOfJewels` | backend/internal/analyzer/montecarlo.go:406-412 | The expected number of compromised jewels is the jewels' own probabilities added up. |
| `Risk.CountsAreOrdered` | backend/internal/analyzer/montecarlo.go:396-412 | A jewel's hits are at most the trials with any hit, those at most the trials, and at most the total. |
| `WhatIf.CutEdges` | backend/internal/analyzer/kshortest.go:350-366 | Exactly the edges no cut names are left, in order. |
| `WhatIf.CutCompromisesLess` | backend/internal/analyzer/montecarlo.go:31-34 | In every trial the jewels compromised after the cut are among those before it. |
| `WhatIf.IrrelevantCutChangesNothing` | backend/internal/analyzer/montecarlo.go:33-34 | In every trial a cut that no route from a seed to a jewel crosses changes nothing. |
| `WhatIf.ReductionsAreTheCutsOwn` | backend/internal/analyzer/kshortest.go:292-305 | The reductions are the share of trials in which the cut saves the last jewel and the jewels it saves by trial; so neither is negative, and both are exactly zero for such a cut. |
| `WhatIf.HeldJewelSaturates` | backend/internal/analyzer/kshortest.go:292-305 | A jewel held from the start makes the chance of any compromise 1 in every simulation. |
| `WhatIf.WhatIf` | backend/internal/analyzer/kshortest.go:307-348 | Both simulations over the same trials, both path lists in their order, the number of edges removed and the reductions, which are the trials' and jewels' the cut saves; cancelled exactly when one of its simulations is. |
| `Agreement.ListedPathCompromises` | backend/internal/analyzer/attackpath.go:188-260 | A listed path whose hops all succeed in a trial has its jewel compromised in it. |
| `Agreement.ListedExactly` | backend/internal/analyzer/attackpath.go:188-279 | A jewel has a listed path exactly when it is held or another seed has a route to it. |
| `Agreement.CompromisedIsListed` | backend/internal/analyzer/montecarlo.go:235-256 | A jewel compromised in any trial is listed, unless an attack may start at it without it being held. |
| `Agreement.SelfCycleIsUnlisted` | backend/internal/analyzer/attackpath.go:268-271 | That exception is real: an exposed jewel on a cycle is compromised in every trial and never listed. |
| `Profiles.SetPriors` | backend/internal/analyzer/profiles.go:87-126 | The priors in force add up to 1 in the proportions given, over the default names and skills; all-zero keeps the defaults. |
| `Anchor.NewAnchor` | backend/internal/analyzer/profiles.go:182-197 | Priors normalised, or none when they are all zero; weights from the skills; and the bracket the least and the largest inverse weight. |
| `Solver.BeginsBracketing` | backend/internal/analyzer/profiles.go:169-174 | The initial bracket holds the root: the excess is not negative at its lower end and not positive at its upper. |
| `Solver.ExcessFalls` | backend/internal/analyzer/profiles.go:169-174 | The excess falls strictly, so there is one root. |
| `Tangent.ExcessAboveTangent` | backend/internal/analyzer/profiles.go:171-174 | The excess lies above each of its tangents. |
| `Tangent.NewtonStaysLeft` | backend/internal/analyzer/profiles.go:171-174 | A Newton step never passes the root from the left. |
| `Tangent.SearchClimbs` | backend/internal/analyzer/profiles.go:230-241 | From the left of the root the search takes Newton's step whenever it leads into the bracket, climbs, and stays to the left. |
| `Newton.StepKeeps` | backend/internal/analyzer/profiles.go:229-241 | Every step, Newton's or a bisection, keeps the sign change inside the bracket. |
| `Newton.IteratesBracket` | backend/internal/analyzer/profiles.go:218-242 | Every iterate of every search lies inside the initial bracket, with the sign change over its own. |
| `Newton.EndIsFound` | backend/internal/analyzer/profiles.go:218-242 | Where the search ends, at the 61st evaluation at the latest, is what it finds. |
| `Newton.SearchSolves` | backend/internal/analyzer/profiles.go:218-242 | At most 61 evaluations; a search that ends sooner ends where the excess is under 0.0000000000001 either way, or in a bracket of the root no wider than 0.000000000000001 of its upper end: it never ends by stalling. |
| `Newton.NarrowIsAnswered` | backend/internal/analyzer/profiles.go:215-217 | A bracket narrow from the start is answered by its lower end after one evaluation. |
| `Newton.GoodHintIsKept` | backend/internal/analyzer/profiles.go:199-228 | A hint inside the bracket that solves the equation is returned after one evaluation. |
| `Solver.SolvedIsNear` | backend/internal/analyzer/profiles.go:226-228 | Either way of ending leaves the profiles averaging back to the edge to within 0.0000000000001. |
| `Solver.AnchoredProbs` | backend/internal/analyzer/profiles.go:199-243 | Writes the profiles' probabilities at the point the search stops at, and returns its y. They average back to the probability, clamped to a millionth off 0 and 1, to within 0.0000000000001 whenever the search takes fewer than 61 evaluations; it never takes more. |
| `Mixture.SpreadRises` | backend/internal/analyzer/profiles.go:154-160 | At whatever iterate the search stopped, a more skilled profile never stands lower. |
| `Mixture.OddsBySkill` | backend/internal/analyzer/profiles.go:154-170 | Between two profiles an edge's odds differ by the exponential of its basis's sensitivity times the skill between them, wherever the search stopped. |
| `Mixture.SameBasisOrders` | backend/internal/analyzer/profiles.go:154-160 | On one basis, the edge likelier on average is the likelier one against every profile. |
| `Association.Associated` | backend/internal/analyzer/profiles.go:26-29 | Chebyshev's association inequality over the profiles: values that rise together average at least the product of their averages. |
| `Mixture.ProductsAssociate` | backend/internal/analyzer/profiles.go:26-29 | The same for products of any number of hops. |
| `Mixture.MixtureAtMostAverage` | backend/internal/analyzer/profiles.go:26-29 | The mixture is at most what any hop averages to. |
| `Mixture.MixtureAtLeastAverages` | backend/internal/analyzer/profiles.go:26-29 | The mixture is at least the score of the averages when the profiles agree on each cause's weakest hop. |
| `Profiles.AttackerMixture` | backend/internal/analyzer/profiles.go:245-270 | Every hop spread over the profiles, every profile scored on its own row, none below a less skilled one, and the mixture their average by prior. Where every search takes fewer than 61 evaluations: the hops' profiles average back to the clamped probabilities, and the mixture lies at most at every clamped hop and, with one basis to a cause, at least at their score, to within 0.0000000000001 a hop. |
| `Profiles.MixtureInBand` | backend/internal/analyzer/profiles.go:26-29 | Wherever the searches stopped: mixture at most every hop's average and, with one basis to a cause, at least the score of the averages. |
| `Tolerance.ScoreMoves` | backend/internal/analyzer/profiles.go:26-29 | Lowering every hop by no more than t lowers the score by no more than t a hop. |
| `Profiles.MixtureNearBand` | backend/internal/analyzer/profiles.go:26-29 | For what is returned when no search took its 61st evaluation: mixture at most every clamped hop plus 0.0000000000001 and, with one basis to a cause, at least the score of the clamped hops less as much for each hop. |
| `Profiles.MixtureBetween` | backend/internal/analyzer/profiles.go:26-29 | With the equations solved: score at most mixture at most every hop, for any hops, profiles and priors, when hops on one cause carry one basis. |
| `OneCause.BasesMustAgree` | backend/internal/analyzer/profiles.go:26-29 | Two bases on one cause can put the mixture below the score: two hops at 1/2 do, with their equations solved, under priors an operator can set and for every strictly rising exponential that the opposite exponent inverts. |
| `OneCause.OneCauseExactly` | backend/internal/analyzer/profiles.go:26-29 | A route on one cause mixes to at least the score of its averages if and only if some single hop is weakest for every profile of positive prior; and never to more. |
| `OneCause.OneCauseMixture` | backend/internal/analyzer/profiles.go:245-270 | Of a reported route on one cause, its equations solved: score at most mixture if and only if such a hop exists. |
| `OneCause.PolarIsConfigurable` | backend/internal/analyzer/profiles.go:87-126 | The profiles of that instance are what the default ones become under the priors given as 0.5, 0 and 0.5. |
| `OneCause.PolarStops` | backend/internal/analyzer/profiles.go:199-243 | With the geometric middle, the search for either of its hops begins at the solution and stops there. |
| `Profiles.SingleHopIsClamped` | backend/internal/analyzer/profiles.go:207-208 | A single hop is in the band if and only if its probability is inside the clamp. |
| `Profiles.NoHopsAreCertain` | backend/internal/analyzer/profiles.go:247-249 | A path without hops is certain against every profile. |
| `Profiles.StopsOnce` | backend/internal/analyzer/profiles.go:154-160 | Equal edges spread equally, in a path and in the simulation. |
| `ProfileRisk.CondRises` | backend/internal/analyzer/montecarlo.go:42-43 | A more skilled profile crosses every edge at least as easily. |
| `ProfileRisk.StrongerReachesMore` | backend/internal/analyzer/montecarlo.go:42-43 | In every trial a more skilled profile compromises at least the jewels a weaker one does. |
| `ProfileRisk.MixtureCompromise` | backend/internal/analyzer/montecarlo.go:519-567 | Each profile's rate over the headline's trials and their mean by prior, or nothing without a profile; stopped exactly when the context is found done in one of them. |
| `ProfileRisk.ReportedRatesRise` | backend/internal/analyzer/montecarlo.go:525-526 | In what it reports a more skilled profile never fares worse. |
| `Splitter.SplitEvent` | backend/internal/broker/batch.go:201-275 | An event no larger than a message, as written, is sent whole. Otherwise it succeeds if and only if every element fits a message with the event's other fields; then the chunks are the nodes and then the edges in order, none lost, none empty, each within the limit. Where the estimate does not fall short, no chunk has room for the element after it. |
| `Splitter.SplitNodes` | backend/internal/broker/batch.go:242-257 | The running estimate may be any: whatever it says, cutting and halving conserve the nodes. Where what it finds within the budget fits, every cut was due: with one more node the chunk would have exceeded the budget. |
| `Splitter.EmitNodes` | backend/internal/broker/batch.go:214-234 | A chunk still too large is halved, down to one element, which fails exactly when it does not fit. |
| `Splitter.SplitsAppend` | backend/internal/broker/batch.go:285-305 | Chunks of one part followed by chunks of the next are chunks of both. |
| `Batch.StepKeeps` | backend/internal/broker/nats.go:379-415 | Every step of every replica - deliver, handle, record, mark, acknowledge, check, count, create, list, sweep, fail, crash, expiry - keeps the invariant of the protocol. |
| `Batch.FullCountIsAll` | backend/internal/broker/snapshot.go:108-135 | When as many applied keys are alive as the total says, every message was handled and recorded. |
| `Batch.SweepsAreSafe` | backend/internal/broker/snapshot.go:67-106 | In every interleaving, a sweep is started only after the handler succeeded for every message, and sweeps only scopes the batch declared. |
| `Sweeps.SweptExactly` | backend/internal/broker/snapshot.go:92-104 | Over every run exactly those scopes are swept that a step swept: its call succeeded while the scope's record was alive. |
| `Sweeps.ListedIsAccounted` | backend/internal/broker/snapshot.go:87-105 | Over every run a listed scope is still to be swept, was swept, or was lost: its sweep failed, its record had expired, or the sweeper crashed first. |
| `Sweeps.TriedOnce` | backend/internal/broker/snapshot.go:92-105 | A scope's turn is over whether its sweep succeeds or fails, and no other's is: a sweep ends after as many calls as scopes were listed. |
| `Sweeps.FinishedSweepIsExact` | backend/internal/broker/snapshot.go:67-106 | A sweeper that is done has swept exactly the declared scopes, when every record was written, none has expired and none of its own sweeps failed or was cut short. |
| `Sweeps.FlawlessBatchIsSwept` | backend/internal/broker/snapshot.go:67-106 | In every interleaving in which no call fails, no replica crashes and nothing expires, a batch whose messages are settled and replicas idle has been swept once, in exactly the declared scopes. |
| `Sweeps.FailedCallKeeps` | backend/internal/broker/snapshot.go:71-74 | A call that fails changes nothing the replicas share and sweeps nothing. |
| `Sweeps.GoesOn` | backend/internal/broker/nats.go:379-415 | Wherever a replica stands its next step can be taken, in the one order the code has; only its crash breaks it. |
| `Batch.ListsEveryScope` | backend/internal/broker/snapshot.go:50-65 | While nothing expired and no record failed, the sweeper lists exactly the declared scopes. |
| `Batch.AtMostOneSweep` | backend/internal/broker/snapshot.go:67-86 | A batch is swept at most once, however its keys expire, when no replica takes longer from reading the total to creating the key than the batch took to its first sweep. |
| `Batch.DawdlingSweepsTwice` | backend/internal/broker/snapshot.go:67-86 | For every key life, every time of the first sweep before it ends, and every delay longer than that, there is a run that sweeps twice. |
| `Batch.LostNeverSweeps` | backend/internal/broker/snapshot.go:71-74 | A batch with a message given up unhandled is never swept. |
| `Batch.GivenUpOnLastAttempt` | backend/internal/broker/nats.go:388-408 | Over every run: a message is attempted at most eight times; each attempt ended once, or is with exactly one replica; and the message is dead-lettered exactly when its handler refused it on the eighth - so one given up unhandled was refused, dropped with its replica or is still in hand on every attempt before. |
| `Audit.HeadCommits` | backend/internal/audit/audit.go:237-243 | Two chains that stand at one hash agree record by record, back from their ends, as far as both reach. |
| `Audit.OnlyOneHistory` | backend/internal/audit/audit.go:278-322 | A chain from one beginning is the only one that ends at its hash. |
| `Audit.VerifyPG` | backend/internal/audit/postgres.go:453-516 | Accepts exactly the tables that hold one chain resuming at their checkpoint, and otherwise counts the records before the first that breaks it. |
| `Audit.RowDecides` | backend/internal/audit/postgres.go:478-514 | With the rows before it verified, a row alone decides; once it fails no longer table verifies. |
| `Audit.VerifiedTablesAgree` | backend/internal/audit/postgres.go:442-452 | Two tables that verify and end at one hash hold the same records wherever both reach. |
| `Audit.PgLog.Append` | backend/internal/audit/postgres.go:224-288 | Adds the next record of the chain - from the last row, or the checkpoint when there is none - or leaves no gap. |
| `Audit.PgLog.Write` | backend/internal/audit/postgres.go:132-162 | A record that cannot be stored leaves a tombstone of who did what, if that can be. |
| `Audit.PgLog.Drain` | backend/internal/audit/postgres.go:130-179 | The queue is written in order, each record stored, tombstoned or lost as the store allows. |
| `Audit.QueueIsAccounted` | backend/internal/audit/postgres.go:137-151 | Unless a tombstone fails too, every queued record leaves one record of who did what and when, in order, with its detail or with the words that it could not be stored. |
| `Audit.PgLog.PruneBefore` | backend/internal/audit/postgres.go:368-440 | Takes exactly the rows up to the newest old enough, whatever the times before it, and moves the checkpoint to the last one taken. |
| `Audit.PruningOnlyForgets` | backend/internal/audit/postgres.go:371-375 | Over any run, the log is the chain all its appends make without any prune, less exactly the prefix its checkpoint stands for. |
| `Audit.HonestVerifies` | backend/internal/audit/postgres.go:442-452 | However and by whomever its rows were written, an honest table verifies for a reader if and only if the reader reads every row's fields back as they were hashed; its pruned and kept records add up to its last number. |
| `Audit.HonestRun` | backend/internal/audit/postgres.go:224-516 | Any sequence of appends by any writers, failures, tombstones and prunes leaves what the operations say; a reader accepts it, with the exact row count, if and only if it reads every kept row's fields back as they were hashed. |
| `Audit.ReadBackExactly` | backend/internal/audit/postgres.go:518-531 | A row's fields are read back as they were hashed if and only if writer and reader both seal or neither does and the hashed text survives being read, or a row without fields was written plain. |
| `Audit.OneSettingReadsBack` | backend/internal/audit/postgres.go:224-516 | Where every record is written as the reader reads and survives it, every run leaves such rows only; `WrittenByReadsBack` then makes the table verify. |
| `Audit.SealingTurnedOnIsRefused` | backend/internal/audit/postgres.go:518-531 | Sealing turned on over a row written plain: the honest table is refused. |
| `Audit.InvalidByteIsRefused` | backend/internal/audit/audit.go:186-243 | A record whose path holds a byte that is no character is refused even with its own writer's settings: what was hashed is an escape, what is read back is the character. |
| `AuditFile.LineRoundTrips` | backend/internal/audit/audit.go:103-126 | A reader with the key reads a line, written sealed or plain, and reads it back unchanged if and only if its body survives being read. |
| `AuditFile.SealedIsUnread` | backend/internal/audit/audit.go:103-126 | A line written with sealing on says nothing to a reader that cannot open it. |
| `AuditFile.Verify` | backend/internal/audit/audit.go:278-322 | Accepts exactly the files that read as one chain from the beginning, and counts their records. |
| `AuditFile.LineDecides` | backend/internal/audit/audit.go:295-320 | With the lines before it verified, a line alone decides. |
| `AuditFile.Tail` | backend/internal/audit/audit.go:245-276 | The number and hash the file's chain stands at, if every line can be read. |
| `AuditFile.Log.Record` | backend/internal/audit/audit.go:128-177 | Appends the next record of the chain as one line; a failed write leaves the chain where it was. |
| `AuditFile.HonestFileVerifies` | backend/internal/audit/audit.go:278-322 | An honest file, its lines written by any sealers, verifies for a reader if and only if the reader reads every line back unchanged. |
| `AuditFile.KeyedReaderAccepts` | backend/internal/audit/audit.go:103-126 | With the writers' keys, sealing turned on in between or not, that is if and only if every body survives being read. |
| `AuditFile.Restart` | backend/internal/audit/audit.go:88-101 | Reopening an honest file with any sealer succeeds if and only if every line can be read, and then the chain is resumed exactly where its writers stood. |
| `AuditFile.Reopen` | backend/internal/audit/audit.go:88-101 | The reopened log is honest, over the same lines and records. |
| `SnapshotCache.TenantState.Acquire` | backend/internal/analyzer/service.go:511-584 | Reads the whole graph exactly when it must; otherwise patches the cache, which then holds every element at its current value and beyond them only what left after the epoch was read. |
| `SnapshotCache.OpsKeepBeside` | backend/internal/analyzer/service.go:524-540 | Whatever other replicas write or remove, the next delta carries what changed or the epoch has moved. |
| `SnapshotCache.PatchCatchesUp` | backend/internal/analyzer/service.go:542-559 | Patching brings the cache up to the store. |
| `SnapshotCache.TenantState.Perform` | backend/internal/analyzer/service.go:511-584 | One pass over a store that is written to before, during and after it keeps the cache beside the store. |
| `SnapshotCache.Passes` | backend/internal/analyzer/service.go:499-600 | Over any run of passes with a clock that never goes back: every pass reads the whole graph or a faithful delta, a delta that kept something gone is followed by a full read when the epoch is known, and at most 20 deltas are read between full reads that succeed. Where nothing is removed but between passes, and the next pass is told and can read, every pass returns exactly the store it read, epoch or none. |
| `SnapshotCache.FailedReadLingers` | backend/internal/analyzer/service.go:511-584 | That it can read is needed: on a store without an epoch, a full read that fails after a prune leaves what was pruned to the next delta. |
| `SnapshotCache.EpochStaysExactly` | backend/internal/graph/memory/memory.go:395-397 | The store's epoch stays where it is exactly as long as no element goes. |
| `SnapshotCache.ExtraForcesFullRead` | backend/internal/analyzer/service.go:524-540 | Once something in the cache has left the store, the next pass that knows the epoch reads the whole graph. |
| `SnapshotCache.WriteArrivesExactly` | backend/internal/graph/memory/memory.go:343-363 | The next delta brings a write if and only if it is stamped at or after the watermark or changed nothing. |
| `SnapshotCache.LateWriteIsMissed` | backend/internal/graph/store.go:437-442 | A node stamped before the watermark and written after the read is missed by the next delta. |
| `QueryGuard.FullMonotone` | backend/internal/api/server.go:323-339 | The full expansion does not depend on the fuel once there is enough. |
| `QueryGuard.NoChainIsLonger` | backend/internal/api/server.go:380-409 | No chain of fields, each inside the one before in the expansion, is longer than its depth. |
| `QueryGuard.LongestChain` | backend/internal/api/server.go:380-409 | Some chain is as long as the depth. |
| `QueryGuard.SelectionsAreWeights` | backend/internal/api/server.go:411-462 | The selections of an expansion are the weights of its fields added up. |
| `QueryGuard.Guard.SelectionSetCost` | backend/internal/api/server.go:380-409 | The memoised walk with its early exit is exact when the expansion ends within the budget, and over budget otherwise - also when it never ends. |
| `QueryGuard.Guard.FragmentCost` | backend/internal/api/server.go:475-491 | A fragment's body is walked once; a spread of one being walked is a cycle, and reads as over both limits. |
| `QueryGuard.VisitedIsEndless` | backend/internal/api/server.go:479-481 | A spread of a fragment being walked never ends in the full expansion. |
| `QueryGuard.RightDecides` | backend/internal/api/server.go:340-378 | Such a cost is within the limits exactly when the expansion ends, no chain in it is longer than 15 and the weights of its fields add up to at most 2000. |
| `QueryGuard.QueryCost` | backend/internal/api/server.go:340-378 | Within the limits if and only if every operation's expansion ends, none of its chains of fields is longer than 15 and its fields' weights add up to at most 2000; and then the depth is the longest chain and the selections the largest weight of any operation. No fragment body is walked twice in a document. |
| `Replay.Verifier.VerifyV2` | backend/internal/auth/hmac.go:204-234 | One call's verdict and what it remembers, sweep included. |
| `Replay.AcceptedAtMostOnce` | backend/internal/auth/hmac.go:108-113 | Over any run of calls in clock order no signature is accepted twice, although the sweep forgets. |
| `Replay.AcceptedAgainExactly` | backend/internal/auth/hmac.go:204-234 | After the latest acceptance of a signature, a later signed call inside its window is accepted again if and only if a call between them, more than 60 seconds after the sweep before it, swept with a clock reading past that window's end. |
| `Replay.AcceptedExactly` | backend/internal/auth/hmac.go:204-234 | Accepted if and only if signed, at most 300 seconds off the clock either way, and not accepted before. |
| `Replay.ClockOrderIsInOrder` | backend/internal/auth/hmac.go:210-226 | Calls whose clock readings never go back are in order. |
| `Replay.OvertakenCallReplays` | backend/internal/auth/hmac.go:210-219 | A call that read the clock before a sweep that overtook it can be accepted a second time. |
| `StatusReporter.ListCommits` | backend/internal/action/check.go:191-206 | The distinct postable commits of a path, in path order. |
| `StatusReporter.CountedWhenSomePathCounts` | backend/internal/action/check.go:77-116 | A commit's tally is positive exactly when some path counts against it. |
| `StatusReporter.StandingIs` | backend/internal/action/check.go:77-116 | A commit's tally is the number of paths that count against it, the number excused, and whether one that counts was recorded or came later. |
| `StatusReporter.TallyPaths` | backend/internal/action/check.go:87-116 | Every commit's tally over all the paths. |
| `StatusReporter.Reporter.OnCriticalPaths` | backend/internal/action/check.go:86-171 | After a pass, post by post as they go through: red with the words of its tally, green, or as it was; each post is the tenant's own and says something new, and what is remembered is what the forge last accepted. |
| `StatusReporter.RedSetIsExact` | backend/internal/action/check.go:138-171 | When all posts go through, the tenant's red commits are exactly those a path counts against; other tenants' are as they were. |
| `StatusReporter.UnchangedPostsNothing` | backend/internal/action/check.go:123-128 | A verdict that has not changed posts nothing. |
| `StatusReporter.ForgeAgreesExactly` | backend/internal/action/check.go:40-50 | The forge shows a commit as a tenant remembers it exactly when that tenant had the last word on it. |
| `StatusReporter.SharedCommitDisagrees` | backend/internal/action/check.go:86-171 | Passes of two tenants over one shared commit leave it red in one tenant's memory and green on the forge. |

## Left out

- `Profiles.MixtureBetween`: takes the equation as solved exactly; `Profiles.MixtureNearBand` is the band for what the search returns within its tolerance.
- `Batch.ListsEveryScope`: holds while no record has expired and none failed to be written; otherwise the sweeper lists a part of the scopes, which errs towards keeping.
- `SnapshotCache.TenantState.Acquire`: takes the writes of other replicas as stamped no earlier than the watermark; `SnapshotCache.WriteArrivesExactly` says what becomes of the others.
- `CriticalPaths.FindCriticalPaths`: runs the seeds one after the other where the program may use a pool of workers that each fill their own seed's place.
- `AttackPath.AssembleAttackPath`: leaves out confidence, posterior, path id, the correlated-hops flag and the resolution and evidence fields of a hop; the mixture is `Profiles.AttackerMixture`.
- `MonteCarlo.CompileGraph`: the confidence and evidence of an edge are not compiled, as nothing modelled reads them.
- `Risk.SimulateRisk`: leaves out the Wilson intervals, the credible band with its cancellation, and the names and labels of the jewels; the mixture is `ProfileRisk.MixtureCompromise`.
- `WhatIf.WhatIf`: its two simulations carry the fields `Risk.SimulateRisk` does, without intervals, band and mixture.
- `Solver.AnchoredProbs`: takes priors that are not all zero, or no profile at all; `Profiles.SetPriors` leaves no others.
- `Profiles.AttackerMixture`: likewise takes at least one profile and priors that add up to 1; of a search that uses up all 61 evaluations it promises the bracket (`Newton.IteratesBracket`) and no tolerance.
- `Profiles.SetPriors`: starts from the parsed overrides; reading them from the configuration string is not modelled.
- `QueryGuard.QueryCost`: starts from the parsed document, where the last fragment of a name has won.
- `Audit.PgLog.PruneBefore`: the record of the prune itself is an append like any other and is not tied to it.
- `AuditFile.Verify`: a line is read whole; a line torn by a crash and the size limit of the scanner are not modelled.
- `AuditFile.Log.Record`: a failed write leaves no bytes behind; a partial write and the writer's sticky error are not modelled.
- `Replay.Verifier.VerifyV2`: how a query is put into canonical order before it is signed is part of the abstract signature.
- `StatusReporter.Reporter.OnCriticalPaths`: the gate's judgement, the permitted repositories and the wording are functions; the wording of a success and dry-run are left out, as are passes that run at the same time.
- `Splitter.SplitEvent`: promises full chunks only where the estimate does not fall short; where it does, halving may leave them less full.
- Rounding: floating-point arithmetic is modelled over the reals, and a cost that rounds to infinity does not occur.
- Hash collisions of draw keys, snapshot-record keys and audit records do not occur.
- `KShortestToTarget`, the database pathfinder (`CriticalPathsVia`, `rankRawPaths`) and the hop limit: the same searches behind other entry points.
- Batch status for a waiting client, the delay before a redelivery, malformed messages and subject names.
- Publishing a batch that is not tracked, and messages without batch headers: nothing of theirs is swept.
- The store's own implementations; what the model needs of them is the delta, the removal epoch and upserts.
- Connectors, resolvers, the HTTP server, forge clients, priorities, labels, reports and the user interface.
