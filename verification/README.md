# Verification of the DAG task engine

A Dafny model of the engine that runs a task along a graph of services on several machines, and of a few
stateful algorithms around it, with proofs of what they promise. `dafny verify dfyconfig.toml` checks everything.

## What is modelled

**The fork/join protocol.** `Protocol.dfy` is a step machine: tasks run in services, come back, are forked to the
next services, stored at joints in a shared store, taken out by whoever completes a joint, merged and sent on.
A store-and-count and a take-all are one atomic step each; anything may happen between two steps. Loss,
duplication, crashes, store failures and expiry are steps too. Three results cover whole runs: join safety for
every run (`JoinSafety.dfy`, with the order of entries in `EntryOrder.dfy`), exactly-once entry, delivery and a
bound on the length of loss-free runs (`RunInvariant.dfy`, `StartStep.dfy`, `ForkStep.dfy`, `EnterStep.dfy`,
`ExactlyOnce.dfy`), and complete results in every delivered task where joints are covered (`ResultsComplete.dfy`).
`LostJoints.dfy` proves on exactly which graphs loss-free runs are exactly-once: `OnceIff.dfy` has what unclean lists
do, `LosslessRuns.dfy` continues any loss-free run until nothing is left to do, `LastToArrive.dfy` holds one branch
back until everybody else has arrived. `ResultsExact.dfy` does the same for complete results. `AcceptedRuns.dfy`
reads the condition off an accepted dictionary and ties the table of common ancestors to the search.
`LastChoices.dfy` shows that being last at two joints can exclude each other. `StarvedJoints.dfy` has what no run can
enter, `ResultsDropped.dfy` and `AlwaysDropped.dfy` what merges lose, `StartEntry.dfy` what happens to children of the
start, and `Controller.dfy` the controller and the coordinator as classes whose methods are runs of the machine. A good
graph is one that meets `RunInvariant.GoodConfig`, which `LostJoints.OnceIffMerging` shows to be exactly what
exactly-once runs need.

**The graph.** `Dag.dfy`, `DagValidation.dfy` and `DagExtraction.dfy` follow the building, repair and checking of a
service graph, and state acceptance in terms of the dictionary alone. `Pipeline.dfy` and `PipelineConversion.dfy`
treat chains. `TaskMerge.dfy` is forking and merging of tasks, `TaskTimes.dfy` the latency sums.

**The solvers.** Label-correcting longest path, Dijkstra, breadth-first search, all simple paths, reachability
between two nodes, and the two-sided common-ancestor search, each over adjacency lists (`Graphs.dfy`). Loops over
acyclic graphs end because the number of paths leaving the queued nodes goes down. `SearchLevels.dfy` and
`LcaExact.dfy` say what the two-sided search has met after each round, when it raises, where it ends and when its
answer is lowest.

**Around it.** The backend's check of a drawn graph (`DagCheck.dfy`), the instance cache (`InstanceCache.dfy`),
non-maximum suppression (`NonMaxSuppression.dfy`, its rounds in `SuppressionRounds.dfy`), detection accuracy
(`AccuracyEstimation.dfy`), the clip player (`VideoPlayer.dfy`) and incremental result polling (`Polling.dfy`).
`Boxes.dfy` has the boxes and `Sorting.dfy` the stable sort that several of them share.

## Claims that do not hold of the code

- The common-ancestor search can raise although there is a common ancestor, and can miss a deeper one. Both have a
  graph as proof (`LcaCounterexamples.dfy`). `LcaExact.RaisesIff` says exactly when it raises, `LcaExact.LowestIff`
  exactly when its answer is lowest, and `LcaExact.GradedIsLowest` names graphs on which it always is. A raise loses
  the joint: on a graph with clean lists no run ever delivers (`StarvedJoints.UnevenNeverDelivers`).
- A merge can lose a branch's result (`TaskMerge.MergeCanDrop`); `TaskMerge.MergeCompleteIff` says exactly when one
  merge does, and `ResultsExact.HoldsIff` when none in a run does. On a graph that is good in every other way each
  delivered task lacks a result (`AlwaysDropped.NeverAll`).
- Duplicate checks and the adding of the start look at successor lists only, so an accepted dictionary need not give
  exactly-once runs. It does exactly if it is tidy and the search answers for whoever can be last at a joint
  (`AcceptedRuns.OnceIffTidy`). A joint that repeats a predecessor is never entered out of a returned task
  (`JoinSafety.JoinSafe`); a back reference alone leaves its target wired to the start as well and never joined
  (`StartEntry.BackReferenceIsNeverJoined`). A node whose predecessor list holds nothing but the start, however often,
  is entered once.
- Suppression does not end on a list if a box it comes to keep does not suppress itself, and ends otherwise
  (`SuppressionRounds.RoundsEndIff`); it ends on every list exactly for the thresholds of
  `NonMaxSuppression.SafeThreshold` (`NonMaxSuppression.SafeIffRoundsEnd`).
- With a threshold of zero or less every prediction counts as a hit; hits stay within the ground truths exactly for
  positive thresholds (`AccuracyEstimation.HitsBoundedIff`).
- A poll with a size loses the older pending records for good, although the query is documented as incremental
  (`Polling.OlderIsLost`); it loses none exactly if no more is pending than its size (`Polling.AllReturnedIff`).
- A cyclic player none of whose clips decodes a frame never returns from a read (`VideoPlayer.LoopFindsIff`).

## Model

| member | source | states |
|---|---|---|
| `JoinSafety.JoinSafe` | dependency/core/controller/controller.py:233-272 | in every run, whatever is lost, repeated, crashed, expired or interleaved, a service entered out of a returned task has a repetition-free predecessor list, was entered with tasks from exactly that whole list, and one predecessor finds a common ancestor with all of them; so a joint whose list repeats a name is never entered from a return |
| `EntryOrder.RunTraced` | dependency/core/controller/controller.py:206-272 | in every run, lossy or not, a service is entered out of returned tasks only after each service they came from was entered for the same root task, and only what was entered runs, is stored or is delivered |
| `JoinSafety.AllPredecessors` | dependency/core/controller/task_coordinator.py:40-101 | as many different past services at a joint as its predecessor list is long are all predecessors, each listed once: the branch checks of the retrieval suffice |
| `JoinSafety.RetrieveSafe` | dependency/core/controller/task_coordinator.py:40-101 | taking everything stored at a joint, checking, merging and submitting keeps the safety invariant for any interleaving before it |
| `JoinSafety.ForkSafe` | dependency/core/controller/task_coordinator.py:22-38 | storing and counting, or submitting at once past a single predecessor, keeps the safety invariant |
| `ExactlyOnce.EnteredAtMostOnce` | dependency/core/controller/controller.py:206-272 | in every loss-free, duplicate-free run on a good graph no service is entered twice for a root task, every predecessor of an entered service was entered before and has returned, and the end is delivered at most once |
| `ExactlyOnce.QuietMeansDelivered` | dependency/core/controller/controller.py:206-272 | such a run that can go no further has entered every service exactly once and delivered exactly one end task for every submitted root |
| `LostJoints.OnceIffMerging` | dependency/core/controller/controller.py:206-272 | with one source, one sink, mirrored acyclic lists and no repeated successor, both of these hold of every loss-free run if and only if every node has the start as its only predecessor or lists its predecessors once each without the start, and every predecessor that can be the last one served at a joint finds a common ancestor with all of them |
| `LostJoints.LastMustMerge` | dependency/core/lib/content/task.py:441-457 | if a predecessor can be last at a joint and finds no common ancestor with one of the others, not every loss-free run is exactly-once |
| `LastToArrive.SomeRunArrives` | dependency/core/controller/controller.py:240-272 | a predecessor is the one that retrieves at a joint in some loss-free run, if no other predecessor lies below a joint it serves later |
| `EnterStep.RetrieverIsLast` | dependency/core/controller/controller.py:240-272 | in every state that meets the run invariant whoever retrieves is such a predecessor |
| `LostJoints.ArrivesLast` | dependency/core/controller/controller.py:240-272 | so in every loss-free run on a graph with one source, one sink and clean lists, as long as no merge raises, whoever retrieves is such a predecessor |
| `LastChoices.NotBothLast` | dependency/core/controller/controller.py:240-272 | two predecessors that serve two joints in opposite orders are not both the last at the one they serve first, for one root task of one loss-free run |
| `LastChoices.CrossedChoices` | dependency/core/controller/controller.py:240-272 | a graph on which each of two predecessors is last at its first joint in some loss-free run |
| `LastChoices.CrossedNeverBoth` | dependency/core/controller/controller.py:240-272 | and on which no loss-free run has both |
| `LastChoices.SentForGood` | dependency/core/controller/controller.py:240-272 | an edge taken for a root task stays taken over the rest of a loss-free run |
| `LostJoints.SpentForGood` | dependency/core/controller/controller.py:250-269 | a predecessor that is done with a joint not entered yet, with nothing of it left there, stays so, and the joint stays not entered, as long as a loss-free run enters nothing twice |
| `LostJoints.RaiseSpends` | dependency/core/controller/controller.py:250-269 | this is what a merge that raises leaves behind |
| `LostJoints.RunAgrees` | dependency/core/lib/content/task.py:441-457 | a run does not depend on what the search answers until a merge raises |
| `OnceIff.EnteredTooEarly` | dependency/core/controller/controller.py:218-221 | with a child of the start that has a further predecessor the mere submission of a root task is not exactly-once: the child is entered before that predecessor has returned |
| `OnceIff.NeverComplete` | dependency/core/controller/task_coordinator.py:40-101 | with a joint that lists a predecessor twice some loss-free run is not exactly-once |
| `OnceIff.EveryRunCanDeliver` | dependency/core/controller/controller.py:206-272 | on a good graph every loss-free run can be continued until everything submitted so far is delivered exactly once |
| `LosslessRuns.RunsOut` | dependency/core/controller/controller.py:206-272 | on any acyclic graph with mirrored lists, good or not, every loss-free run goes on to one with nothing left to do, without submitting more |
| `LosslessRuns.StepWork` | dependency/core/controller/controller.py:206-272 | there every loss-free step other than a submission leaves less work, counted in paths below the tasks in flight |
| `StarvedJoints.StarvedForever` | dependency/core/controller/controller.py:250-269 | no run whatever enters a joint with a repeated predecessor, a joint none of whose predecessors finds a common ancestor with all others, or a node below such a joint; if the end is one of them, nothing is ever delivered |
| `StarvedJoints.StarvedNotOnce` | dependency/core/controller/controller.py:250-269 | with any such joint not every loss-free run is exactly-once |
| `StarvedJoints.UnevenNeverDelivers` | dependency/core/lib/content/task.py:441-457 | a graph with one source, one sink and clean lists on which, with the search as it is, no run of any kind enters the joint or delivers anything |
| `StarvedJoints.UnevenNotOnce` | dependency/core/lib/content/task.py:441-457 | so on that graph not every loss-free run is exactly-once |
| `ExactlyOnce.RunsAreFinite` | dependency/core/controller/controller.py:206-272 | the length of such a run is bounded by its number of submissions and the edges of the graph |
| `ExactlyOnce.RunKeeps` | dependency/core/controller/controller.py:206-272 | every reachable state of such a run satisfies the invariant: one task per place, and the store holds exactly one task for every edge taken into a joint not yet entered |
| `ExactlyOnce.StepPotential` | dependency/core/controller/controller.py:206-272 | every step other than a submission lowers the potential; a submission raises it by at most three times the number of edges |
| `ForkStep.ForkStores` | dependency/core/controller/controller.py:243-249 | storing a forked task at a joint, and the count that makes exactly one controller retrieve, keep the invariant |
| `EnterStep.ForkDirect` | dependency/core/controller/controller.py:233-272 | submitting past a single predecessor keeps the invariant |
| `EnterStep.RetrieverFindsAll` | dependency/core/controller/task_coordinator.py:40-101 | when a controller retrieves, exactly one task from every predecessor is stored, so neither the count nor the branch checks can fail |
| `EnterStep.RetrieveJoins` | dependency/core/controller/controller.py:250-269 | retrieving, merging in any order and submitting keeps the invariant |
| `EnterStep.ReturnKeeps` | dependency/core/controller/controller.py:233-242 | taking up a returned task keeps the invariant |
| `StartStep.StartKeeps` | dependency/core/controller/controller.py:218-221 | submitting a root task, one fork per child of the start, keeps the invariant |
| `StartEntry.ChildOfStartNeverJoined` | dependency/core/controller/controller.py:218-221 | in every run, lossy or not, a child of the start is never entered out of a returned task: with a second predecessor its join never fires |
| `StartEntry.StartEntersChildren` | dependency/core/controller/controller.py:218-221 | submitting a root task enters every child of the start at once, without a join |
| `StartEntry.BackReferenceIsNeverJoined` | dependency/core/lib/content/dag.py:120-134 | an edge listed only in a predecessor list leaves its target also wired to the start: both edges are in the graph, and in every run the target is only entered straight from the start |
| `AcceptedRuns.OnceIffTidy` | dependency/core/lib/content/task.py:76-88 | an accepted dictionary gives only exactly-once runs if and only if it is tidy (a node some successor list mentions lists no predecessor twice and not the start, any other node lists at most the start) and whoever can be last at a joint is found by the search with every other predecessor |
| `AcceptedRuns.AllCleanIsTidy` | dependency/core/lib/content/dag.py:113-134 | whether the predecessor lists of the built graph are clean can be read off the dictionary |
| `AcceptedRuns.MergesIffFound` | dependency/core/lib/solver/lca_solver.py:50-99 | whoever can be last at a joint has answers of the search for all pairs there exactly if for each pair one node is above the other or the one with fewer ancestors shares some with what the other meets in time |
| `AcceptedRuns.TableExists` | dependency/core/lib/solver/lca_solver.py:50-99 | every acyclic graph with mirrored lists has such a table of answers |
| `ResultsComplete.DeliveredComplete` | dependency/core/controller/controller.py:206-272 | where at every joint each predecessor that can retrieve has, with what its merges copy, everything above the joint, every delivered end task of every run, however lossy, holds the result of every service |
| `ResultsComplete.CompleteMergesCover` | dependency/core/lib/content/task.py:441-457 | this is so if the common ancestor of any two branches reaches whatever the one lacks of the other |
| `ResultsDropped.RunWithin` | dependency/core/lib/content/task.py:441-457 | in every run, lossy or not, no task holds more than its own way and the merges at its place can bring |
| `ResultsDropped.DeliveredLacks` | dependency/core/lib/content/task.py:441-457 | if no predecessor of the end has, with what its merges copy, everything above the end, then every task ever delivered lacks some result |
| `ResultsExact.HoldsIff` | dependency/core/lib/content/task.py:441-457 | on a good graph every task of every loss-free run holds all results above its place if and only if whoever can be last at a joint has them, with what its merges copy |
| `ResultsExact.SomeDeliveredLacks` | dependency/core/lib/content/task.py:441-457 | if someone who can be last at the end has not, some loss-free run delivers a task that lacks a result |
| `AlwaysDropped.NeverAll` | dependency/core/lib/content/task.py:441-457 | a good graph on which, with the search as it is, every task delivered by any run lacks some service's result |
| `AlwaysDropped.SomeDelivered` | dependency/core/lib/content/task.py:441-457 | and on which loss-free runs do deliver |
| `ResultsComplete.RunComplete` | dependency/core/lib/content/task.py:441-457 | in such runs every travelling, processed and stored task holds the results of all services above its place |
| `Controllers.TaskCoordinator.StoreTaskData` | dependency/core/controller/task_coordinator.py:22-38 | the task is stored under its own id at its root and joint, nothing else changes, and the count is the number of tasks stored there |
| `Controllers.TaskCoordinator.RetrieveTaskData` | dependency/core/controller/task_coordinator.py:40-101 | too few stored tasks: nothing happens; otherwise the joint is cleared, and everything is returned exactly if the past services are as many as required and the joint is one |
| `Controllers.Controller.SubmitTask` | dependency/core/controller/controller.py:206-231 | past the start, the end goes to the distributor and anything else to its service, as the step machine dispatches it |
| `Controllers.Controller.SubmitRoot` | dependency/core/controller/controller.py:218-221 | at the start, one fork per child is submitted: the machine's start step, or nothing |
| `Controllers.Controller.ForkJoint` | dependency/core/controller/controller.py:242-249 | one joint is forked, and stored or submitted, exactly as the machine's fork step; it tells whether the joint is complete, else whether its action is to wait, which is so exactly if nothing was entered |
| `Controllers.Controller.RetrieveJoint` | dependency/core/controller/controller.py:250-269 | retrieve, merge one by one and submit is the machine's retrieve step, for the order the store returns; it raises exactly if what was taken out is one task per branch and a merge finds no common ancestor, waits if the retrieval was invalid, and otherwise enters the joint |
| `Controllers.Controller.TakeUp` | dependency/core/controller/controller.py:233-240 | taking up a returned task is the machine's return step |
| `Controllers.Controller.ServeJoints` | dependency/core/controller/controller.py:240-270 | serving all joints in turn is a run of fork and retrieve steps of this controller; there is one action per joint unless the last step is a merge that raises, and the services entered are, in order, exactly the joints whose action is not to wait |
| `Controllers.Controller.ServeJoint` | dependency/core/controller/controller.py:240-270 | one joint: fork, then retrieve if it is complete; it raises exactly if that retrieval does, and enters the joint exactly if it neither raises nor waits |
| `Controllers.Controller.ProcessReturn` | dependency/core/controller/controller.py:233-272 | an uninterrupted call is a run of the step machine that begins with the return and leaves the controller free; its actions are one per joint unless a merge raises, and what is entered for the root task are, in order, exactly the joints whose action is not to wait |
| `Controllers.ExecContinues` | dependency/core/controller/controller.py:233-272 | such a call after any run is again a run, so every result about runs covers it |
| `TaskMerge.Task.ForkTask` | dependency/core/lib/content/task.py:432-439 | a fresh task of the same root with this one as parent and the same services; a new place makes the old one the past place |
| `TaskMerge.Task.MergeTask` | dependency/core/lib/content/task.py:441-457 | on success exactly the services between the common ancestor and the other's past place are taken from the other; on failure nothing changes |
| `TaskMerge.OverwritesOnlyAncestors` | dependency/core/lib/content/task.py:450-455 | every service a merge overwrites is the other's past service or above it |
| `TaskMerge.MergeCompleteIff` | dependency/core/lib/content/task.py:441-457 | if both hold exactly the results above their past places, the merged task holds both exactly if the common ancestor reaches every ancestor only the other has |
| `TaskMerge.MergeCanDrop` | dependency/core/lib/content/task.py:450-455 | a graph on which merging loses a result for every possible answer of the search |
| `Dags.DAG.AddNode` | dependency/core/lib/content/dag.py:88-100 | a node is added under its service name and comes last in order, or nothing changes if the name is taken |
| `Dags.DAG.AddEdge` | dependency/core/lib/content/dag.py:102-111 | missing nodes are added and both lists are extended, also when the edge was there |
| `Dags.DAG.AddStartNode` | dependency/core/lib/content/dag.py:113-134 | the start leads to exactly the nodes no successor list mentions, in the order of the nodes, and only their predecessor lists grow; it fails if the name is taken |
| `Dags.DAG.AddEndNode` | dependency/core/lib/content/dag.py:136-150 | exactly the nodes without successors, in the order of the nodes, lead to the end; it fails if the name is taken |
| `DagValidation.CheckEdgeConsistency` | dependency/core/lib/content/dag.py:260-302 | both passes fail exactly on an unknown neighbour; after success the two kinds of list are inverse, lists having only grown by what the other end lists, so the second pass never rejects what the first accepted |
| `DagValidation.VerifyEdges` | dependency/core/lib/content/dag.py:287-302 | once all neighbours are known, the second pass fails exactly on a one-sided edge |
| `DagValidation.CheckDuplicateEdges` | dependency/core/lib/content/dag.py:204-212 | fails exactly if some successor list repeats a name |
| `DagValidation.Dfs` | dependency/core/lib/content/dag.py:214-235 | a hit proves a cycle; no hit leaves everything visited finished and the stack as it was |
| `DagValidation.CheckCycles` | dependency/core/lib/content/dag.py:214-235 | fails exactly if the graph has a directed cycle |
| `DagValidation.CheckConnectivity` | dependency/core/lib/content/dag.py:237-258 | fails exactly if the undirected search from the first node misses a node |
| `DagExtraction.FromDict` | dependency/core/lib/content/dag.py:312-318 | fails exactly on a repeated service name; otherwise the nodes are the items in order, each with its own two lists and its service as read: name, device, content and every time that is not negative unchanged, negative times zero |
| `DagExtraction.ValidateDag` | dependency/core/lib/content/dag.py:191-302 | which verdict is given when, and what acceptance means: inverse lists, no cycle, no repeated successor |
| `DagExtraction.ExtractDagFromDict` | dependency/core/lib/content/task.py:76-88 | every item's service is kept field by field, negative times as zero; a dictionary without the reserved keys is accepted exactly if names are distinct, neighbours known, successors not repeated and the meant edges can be ranked, and is otherwise rejected for the first of these that fails; then next and prev are inverse, the start is the only source, the end the only sink and everything lies between them; neither the second consistency pass nor the connectivity check can be what rejects it |
| `DagExtraction.ValidationOfExtended` | dependency/core/lib/content/task.py:76-88 | after adding the ends, repair yields exactly the edges meant by the dictionary, and the verdict depends on the dictionary alone |
| `DagExtraction.SourceReachesAll` | dependency/core/lib/content/dag.py:113-134 | in an acyclic graph with one source that source reaches everything |
| `DagExtraction.AcyclicMeansRankable` | dependency/core/lib/content/dag.py:214-235 | the repaired graph is acyclic exactly if the dictionary's meant edges can be ranked |
| `Pipeline.CheckIsPipeline` | dependency/core/lib/content/dag.py:162-189 | on edge-consistent graphs the check is true exactly if all nodes form one chain from start to end; it raises exactly without an end |
| `PipelineConversion.ExtractDagFromPipelineDeployment` | dependency/core/lib/content/task.py:135-148 | distinct, non-empty, unreserved names give exactly the chain of the services in order, also for no service at all, each service kept field by field with negative times as zero |
| `PipelineConversion.ExtractPipelineDeploymentFromDag` | dependency/core/lib/content/task.py:116-132 | succeeds exactly on chains, and lists the names and devices in order |
| `PipelineConversion.RoundTrip` | dependency/core/lib/content/task.py:115-148 | from a pipeline to a graph and back gives the same names and devices in order |
| `TaskTimes.CalculateTotalTime` | dependency/core/lib/content/task.py:344-351 | the result is the sum of the transmission times and of the execution times along some path from start to end, and at least that sum on every such path; before the end it fails |
| `TaskTimes.CalculateCloudEdgeTransmitTime` | dependency/core/lib/content/task.py:353-362 | the longest transmission time of all services, at least zero |
| `TaskTimes.TotalCoversServices` | dependency/core/lib/content/task.py:344-351 | on a normalised graph the total time is at least the transmission and execution time of each service |
| `TaskTimes.TotalCoversTransmission` | dependency/core/lib/content/task.py:344-362 | on a normalised graph the total time is at least the transmission time |
| `LongestPath.WeightedLongestPath` | dependency/core/lib/solver/path_solver.py:146-198 | on every acyclic graph the loop ends; it returns a real path whose weight is the returned maximum over all paths, and fails exactly if a node is unknown or the target unreachable |
| `LongestPath.LabelBoundsPath` | dependency/core/lib/solver/path_solver.py:165-185 | with nothing queued no path outweighs its end's label |
| `LongestPath.ExploreNeighbors` | dependency/core/lib/solver/path_solver.py:170-182 | raising the labels of a node's successors keeps every other node queued or settled and uses up the work of the node |
| `ShortestPath.WeightedShortestPath` | dependency/core/lib/solver/path_solver.py:91-144 | with non-negative weights, early exit and stale entries skipped, the path returned attains the minimum weight; it fails exactly if a node is unknown or the target unreachable |
| `ShortestPath.KeyBoundsPath` | dependency/core/lib/solver/path_solver.py:108-136 | the least key queued bounds the weight of every path not yet accounted for |
| `BreadthFirst.ShortestPath` | dependency/core/lib/solver/path_solver.py:24-64 | the path returned has the fewest edges; it fails exactly if a node is unknown or the target unreachable |
| `BreadthFirst.LevelBoundsPath` | dependency/core/lib/solver/path_solver.py:36-56 | levels never exceed the length of a path |
| `AllPaths.GetAllPaths` | dependency/core/lib/solver/path_solver.py:66-89 | exactly the simple paths are returned, each once if no successor list repeats a name; it raises exactly if there is none |
| `AllPaths.CompletionsExact` | dependency/core/lib/solver/path_solver.py:73-87 | the stack search meets exactly the simple paths, and some exactly if the target is reachable |
| `AllPaths.CompletionsDistinct` | dependency/core/lib/solver/path_solver.py:73-87 | with repetition-free successor lists it meets none twice |
| `Backtrack.PathBack` | dependency/core/lib/solver/path_solver.py:54-64 | following recorded predecessors back from the target ends at the source and gives a real path |
| `IntermediateNodes.Search` | dependency/core/lib/solver/intermediate_node_solver.py:34-62 | exactly the reachable nodes are visited |
| `IntermediateNodes.GetIntermediateNodes` | dependency/core/lib/solver/intermediate_node_solver.py:13-32 | exactly the nodes between the two on some path, without the two; unknown nodes raise |
| `Lca.LCASolver.PrecomputeDepths` | dependency/core/lib/solver/lca_solver.py:17-35 | on every acyclic graph the loop ends with every node's depth its longest path from a root |
| `Lca.LCASolver.GetAncestors` | dependency/core/lib/solver/lca_solver.py:37-48 | the node and everything above it, cached; an unknown node raises |
| `Lca.LCASolver.FindLca` | dependency/core/lib/solver/lca_solver.py:50-99 | of two related nodes exactly the upper one; otherwise the first of the deepest in the list of candidates noted up to the first round that ends the search, or it raises |
| `Lca.AnswerIsCommonAncestor` | dependency/core/lib/solver/lca_solver.py:50-99 | whatever is returned is both nodes' ancestor or one of them |
| `Lca.NotedSplit` | dependency/core/lib/solver/lca_solver.py:68-88 | the parents the other side has met are noted one by one, in order |
| `LcaExact.RaisesIff` | dependency/core/lib/solver/lca_solver.py:70-96 | it raises exactly if neither node is above the other and the one with fewer ancestors, n of them, shares none with what the other's breadth-first order meets by expanding n nodes |
| `LcaExact.EqualCountsRaise` | dependency/core/lib/solver/lca_solver.py:70-96 | it raises whenever there is no common ancestor, and with equally many ancestors exactly then |
| `LcaExact.RaisesByDistance` | dependency/core/lib/solver/lca_solver.py:70-96 | by distances: nothing shared within one more than the distance the smaller count reaches raises; something shared within one more than a distance it covers does not |
| `LcaExact.MetByDistance` | dependency/core/lib/solver/lca_solver.py:63-90 | expanding at most as many nodes as lie within a distance meets nothing beyond the next distance; at least as many meets everything up to it |
| `LcaExact.EndsWhere` | dependency/core/lib/solver/lca_solver.py:70-76 | the search ends after the first completed level that meets something, or else when the side with fewer ancestors has met them all |
| `LcaExact.LowestIff` | dependency/core/lib/solver/lca_solver.py:92-99 | an answer is a deepest common ancestor exactly if one is among the nodes met within the next edge of that level on the one side and in as many expansions on the other |
| `LcaExact.AnswerIsLowest` | dependency/core/lib/solver/lca_solver.py:92-99 | it is one whenever the deeper of two common ancestors is no farther from either node |
| `LcaExact.GradedIsLowest` | dependency/core/lib/solver/lca_solver.py:92-99 | it is one on every graph in which each edge raises the depth by one |
| `LcaExact.SomeAnswer` | dependency/core/lib/solver/lca_solver.py:50-99 | any two nodes of an acyclic graph have an answer or a raise |
| `SearchLevels.RoundLevelled` | dependency/core/lib/solver/lca_solver.py:70-81 | after every round one side has recorded each node it met with its distance, has met everything within its level, has expanded nothing beyond it, and queues that level and the next only, nearest first |
| `Lca.DepthsFinal` | dependency/core/lib/solver/lca_solver.py:17-35 | labels covered on all edges with nothing queued are the longest paths from the roots |
| `Lca.RoundOk` | dependency/core/lib/solver/lca_solver.py:60-90 | what a side has visited and queued after each round, and when it runs dry |
| `LcaCounterexamples.FindLcaIncomplete` | dependency/core/lib/solver/lca_solver.py:70-96 | a graph and a pair with a common ancestor on which it can only raise |
| `LcaCounterexamples.FindLcaNotLowest` | dependency/core/lib/solver/lca_solver.py:73-76 | a graph and a pair on which the only answer is a common ancestor above a deeper one |
| `DagCheck.CheckDag` | backend/backend_core.py:645-683 | always ends; on well-linked drawings it succeeds exactly if there is no cycle and every edge joins known services with matching types; an error names an edge at fault |
| `DagCheck.Relax` | backend/backend_core.py:657-677 | one parent's edges: checked in order, in-degrees lowered by one each, and exactly the successors that reach zero queued |
| `DagCheck.FindServiceById` | backend/backend_core.py:558-562 | the first service with the id, if any |
| `DagCheck.ProgressAfter` | backend/backend_core.py:654-677 | counts stay exact and nothing is listed before its predecessors |
| `DagCheck.CountDecides` | backend/backend_core.py:679-682 | seeing as many nodes as there are means no cycle, and conversely |
| `InstanceCache.ConfigBoundInstanceCache.constructor` | dependency/core/lib/common/cache.py:64-84 | empty, with every instance accounted for |
| `InstanceCache.ConfigBoundInstanceCache.Build` | dependency/core/lib/common/cache.py:127-130 | a new instance enters an empty place; every instance stays live in one place or disposed once |
| `InstanceCache.ConfigBoundInstanceCache.Drop` | dependency/core/lib/common/cache.py:118-120 | an entry leaves its place and its instance is disposed of, once |
| `InstanceCache.ConfigBoundInstanceCache.Reconcile` | dependency/core/lib/common/cache.py:125-148 | an unchanged configuration, and a changed one that could be reconfigured, keeps its instance and nothing is disposed of; any other gets a new one, and exactly then the old one, if there is one, is disposed of; the entry is current and just used |
| `InstanceCache.ConfigBoundInstanceCache.EvictLruIfNeeded` | dependency/core/lib/common/cache.py:216-233 | evicts down to the capacity and no further, nothing used later than what stays |
| `InstanceCache.ConfigBoundInstanceCache.SyncAndGet` | dependency/core/lib/common/cache.py:86-152 | the instances handed out are those of serving one configuration after the other on what is left of the namespace, and what is cached afterwards is a part of the result; with distinct keys instances are distinct, current if still cached and reused exactly if unchanged or reconfigured, and the instance of any other changed configuration is disposed of and replaced by a new one; other namespaces lose entries only by eviction; the capacity holds; and with a capacity covering the list and a strictly advancing clock nothing handed out is evicted |
| `InstanceCache.ConfigBoundInstanceCache.GetExisting` | dependency/core/lib/common/cache.py:154-165 | the instance if there, marked as used; otherwise nothing changes |
| `InstanceCache.ConfigBoundInstanceCache.Remove` | dependency/core/lib/common/cache.py:167-178 | the entry goes and is disposed of, or nothing changes |
| `InstanceCache.ConfigBoundInstanceCache.ClearNamespace` | dependency/core/lib/common/cache.py:180-188 | the namespace goes, everything in it disposed of, nothing else changed |
| `InstanceCache.ConfigBoundInstanceCache.ClearAll` | dependency/core/lib/common/cache.py:190-196 | nothing is left and every instance ever built has been disposed of |
| `InstanceCache.ConfigBoundInstanceCache.PruneIdle` | dependency/core/lib/common/cache.py:198-214 | exactly the entries used since the cutoff stay; the count is the number disposed of |
| `InstanceCache.BuildConserved` | dependency/core/lib/common/cache.py:127-130 | building keeps the accounting of instances |
| `InstanceCache.DropConserved` | dependency/core/lib/common/cache.py:235-241 | disposing keeps the accounting of instances |
| `InstanceCache.RebuiltIsGone` | dependency/core/lib/common/cache.py:129-145 | an instance whose configuration changed and which could not be reconfigured is left nowhere |
| `InstanceCache.NothingHandedOutEvicted` | dependency/core/lib/common/cache.py:216-233 | an eviction of something just handed out would leave fewer entries than the capacity |
| `NonMaxSuppression.BboxIou` | dependency/core/applications/car_detection/car_detection_with_tensorrt/car_detection_tensorrt8.py:221-256 | between zero and below one for ordered boxes |
| `NonMaxSuppression.IouSymmetric` | dependency/core/applications/car_detection/car_detection_with_tensorrt/car_detection_tensorrt8.py:221-256 | symmetric |
| `NonMaxSuppression.IouIsShare` | dependency/core/applications/car_detection/car_detection_with_tensorrt/car_detection_tensorrt8.py:250-254 | times the union and the small constant it is the intersection |
| `Boxes.AreaCountsPixels` | dependency/core/applications/car_detection/car_detection_with_tensorrt/car_detection_tensorrt8.py:250-251 | on whole pixels the area is the number of pixels of the box |
| `Boxes.IntersectionCountsPixels` | dependency/core/applications/car_detection/car_detection_with_tensorrt/car_detection_tensorrt8.py:240-248 | on whole pixels the intersection is the number of pixels both boxes have |
| `NonMaxSuppression.SafeIffSelfSuppressing` | dependency/core/applications/car_detection/car_detection_with_tensorrt/car_detection_tensorrt8.py:285-293 | every box suppresses itself exactly if the threshold lies below what one pixel overlaps itself by |
| `SuppressionRounds.RoundsEnd` | dependency/core/applications/car_detection/car_detection_with_tensorrt/car_detection_tensorrt8.py:285-293 | if everything in the list suppresses itself the rounds end |
| `SuppressionRounds.RoundsEndIff` | dependency/core/applications/car_detection/car_detection_with_tensorrt/car_detection_tensorrt8.py:285-293 | on one list the rounds end exactly if every box that none chosen earlier suppresses suppresses itself |
| `NonMaxSuppression.SafeIsEnding` | dependency/core/applications/car_detection/car_detection_with_tensorrt/car_detection_tensorrt8.py:285-293 | with a safe threshold the loop ends on every list of ordered boxes, so the suppression may be called |
| `NonMaxSuppression.SafeIffRoundsEnd` | dependency/core/applications/car_detection/car_detection_with_tensorrt/car_detection_tensorrt8.py:285-293 | the threshold is safe exactly if the rounds end on every list of ordered boxes |
| `SuppressionRounds.RoundsStuck` | dependency/core/applications/car_detection/car_detection_with_tensorrt/car_detection_tensorrt8.py:285-293 | if the first box does not suppress itself the rounds never end and it stays first |
| `SuppressionRounds.ChosenAmongSurvivors` | dependency/core/applications/car_detection/car_detection_with_tensorrt/car_detection_tensorrt8.py:285-293 | removing what a box suppresses and choosing from the rest is choosing under that box |
| `NonMaxSuppression.TransformOrdered` | dependency/core/applications/car_detection/car_detection_with_tensorrt/car_detection_tensorrt8.py:169-195 | a prediction of non-negative size becomes an ordered box within the image |
| `NonMaxSuppression.TransformUndoesLetterbox` | dependency/core/applications/car_detection/car_detection_with_tensorrt/car_detection_tensorrt8.py:120-195 | where the network sees a box once the image is scaled to fit and centred, the transformation gives back that box, each corner moved to the nearest point of the image |
| `NonMaxSuppression.CandidatesSplit` | dependency/core/applications/car_detection/car_detection_with_tensorrt/car_detection_tensorrt8.py:271-280 | the candidates are the predictions that reach the threshold, one by one and in order |
| `NonMaxSuppression.Suppress` | dependency/core/applications/car_detection/car_detection_with_tensorrt/car_detection_tensorrt8.py:258-294 | on every input on which the loop ends: what is kept is exactly what no earlier kept box suppresses, in confidence order, pairwise apart or of different classes, and among the candidates; every candidate is kept or overlaps a kept box of its class and of at least its confidence by more than the threshold |
| `AccuracyEstimation.CalculateIou` | dependency/core/lib/estimation/accuracy_estimation.py:80-93 | raises exactly if the union is zero; times the union it is the intersection; between zero and one for ordered boxes; one for a box and itself |
| `AccuracyEstimation.EachUsedOnce` | dependency/core/lib/estimation/accuracy_estimation.py:124-146 | with a positive threshold no ground truth is matched twice, so hits never exceed the ground truths |
| `AccuracyEstimation.NonPositiveThresholdHitsAll` | dependency/core/lib/estimation/accuracy_estimation.py:124-146 | without one every prediction counts as a hit, so recall exceeds one as soon as predictions outnumber ground truths |
| `AccuracyEstimation.HitsBoundedIff` | dependency/core/lib/estimation/accuracy_estimation.py:124-146 | hits exceed the ground truths on no input exactly if the threshold is positive |
| `AccuracyEstimation.RecallsRise` | dependency/core/lib/estimation/accuracy_estimation.py:149-152 | recalls never fall and never exceed one; precisions never do |
| `AccuracyEstimation.FillEnvelope` | dependency/core/lib/estimation/accuracy_estimation.py:96-101 | the array ends up holding the suffix maxima of what it held |
| `AccuracyEstimation.SuffixMaxIsGreatest` | dependency/core/lib/estimation/accuracy_estimation.py:96-101 | each is the greatest of the values from its position on |
| `AccuracyEstimation.ComputeAp` | dependency/core/lib/estimation/accuracy_estimation.py:96-104 | the recall steps weighted by the envelope |
| `AccuracyEstimation.ApInUnit` | dependency/core/lib/estimation/accuracy_estimation.py:96-104 | the average precision never exceeds the recall reached, and equals it exactly if no step loses anything |
| `AccuracyEstimation.PerfectIff` | dependency/core/lib/estimation/accuracy_estimation.py:96-104 | it is one exactly if the best predictions, as many as there are ground truths, all hit |
| `AccuracyEstimation.FindBest` | dependency/core/lib/estimation/accuracy_estimation.py:131-138 | the first best unused ground truth; raises exactly if some union is zero |
| `AccuracyEstimation.BestIsBest` | dependency/core/lib/estimation/accuracy_estimation.py:131-138 | no unused ground truth overlaps more, and none before it as much |
| `AccuracyEstimation.MatchGreedily` | dependency/core/lib/estimation/accuracy_estimation.py:127-146 | the arrays record the greedy matching of all predictions |
| `AccuracyEstimation.ByProb` | dependency/core/lib/estimation/accuracy_estimation.py:126-127 | the same predictions, the more confident first and equally confident ones in the given order |
| `AccuracyEstimation.OneRanking` | dependency/core/lib/estimation/accuracy_estimation.py:126-127 | there is only one such order |
| `AccuracyEstimation.ClassApInUnit` | dependency/core/lib/estimation/accuracy_estimation.py:126-156 | with a positive threshold a class scores between zero and one, and one exactly if, in such an order, its first predictions, as many as it has ground truths, all hit |
| `AccuracyEstimation.PredsOfSplit` | dependency/core/lib/estimation/accuracy_estimation.py:123-123 | the predictions of a class are picked one by one, in order |
| `AccuracyEstimation.GtsOfSplit` | dependency/core/lib/estimation/accuracy_estimation.py:124-124 | so are its ground truths |
| `AccuracyEstimation.CalculateMap` | dependency/core/lib/estimation/accuracy_estimation.py:106-159 | the mean over the classes, in any order of the classes; one without ground truth, zero without predictions; raises exactly if some same-class pair has no union |
| `AccuracyEstimation.MeanApInUnit` | dependency/core/lib/estimation/accuracy_estimation.py:106-159 | with a positive threshold between zero and one, and one exactly if in every class the first predictions by confidence, as many as it has ground truths, all hit |
| `AccuracyEstimation.CalculateAccuracy` | dependency/core/lib/estimation/accuracy_estimation.py:10-30 | the mean of the frame scores, between zero and one; one without ground truth, zero without predictions; it raises exactly if a prediction has a box without a union with a box of one of its frames |
| `AccuracyEstimation.FrameRaises` | dependency/core/lib/estimation/accuracy_estimation.py:20-27 | scoring a frame raises exactly if some detected box and some box of the frame have no union, whatever else they are |
| `AccuracyEstimation.AverageShares` | dependency/core/lib/estimation/accuracy_estimation.py:30-30 | every score counts once, and the mean times their number is their sum |
| `VideoPlayer.BuildClips` | datasource/video_dataset.py:91-126 | the first unusable entry raises; otherwise every clip has its declared or probed count and its given or running start index |
| `VideoPlayer.VideoDatasetPlayer.ReadFrame` | datasource/video_dataset.py:143-159 | always ends; in a cycle it is the first read that succeeds after those that fail, and the k-th frame read is the one at k in the circle of one pass, whatever the clips decode; played once it is the k-th of the pass and then none for ever; every index lies in its clip's range |
| `VideoPlayer.VideoDatasetPlayer.AdvanceAfterClipEnd` | datasource/video_dataset.py:172-187 | after a clip's last frame the player is at the beginning of the next clip in the circle, and at its end exactly if the clip was the last and clips are played once |
| `VideoPlayer.VideoDatasetPlayer.AdvanceToNextClip` | datasource/video_dataset.py:189-202 | when a clip decodes no further the player goes on to the next clip, unless it was the last and is played once |
| `VideoPlayer.CyclicIsModulo` | datasource/video_dataset.py:143-202 | the position in the circle is the number of frames read modulo its length |
| `VideoPlayer.BuiltSeamless` | datasource/video_dataset.py:91-126 | without explicit start indices the clips follow each other without a gap |
| `VideoPlayer.SeamlessPlay` | datasource/video_dataset.py:143-202 | for such clips the frame index is the position in the pass, and a pass is the declared total |
| `VideoPlayer.FrameUnique` | datasource/video_dataset.py:143-202 | a position in a pass determines the frame |
| `VideoPlayer.LoopFindsIff` | datasource/video_dataset.py:147-159 | the reading loop of a cyclic player, which goes to the beginning of the next clip after each failed read, comes to a read that succeeds exactly if a pass has frames; with none it never ends |
| `Polling.Distributor.SaveTaskRecord` | dependency/core/distributor/distributor.py:143-173 | a record of the same source and task changes nothing; otherwise the record comes last and the write is counted, until at the interval the count starts again and, if pruning works, as many as configured of the newest stay |
| `Polling.Distributor.QueryResult` | dependency/core/distributor/distributor.py:204-255 | the pending records in order of time, the newest of them if limited, and the ticket of the last one |
| `Polling.RowsAreLatest` | dependency/core/distributor/distributor.py:204-255 | a poll gives as many of the pending records as asked for, all if no size is given, in order and none earlier than one left out |
| `Polling.PendingSplit` | dependency/core/distributor/distributor.py:218-230 | pending records are picked one by one, in order of insertion |
| `Polling.ExcludingSplit` | dependency/core/distributor/distributor.py:398-420 | records are dropped one by one, the others stay in order |
| `Polling.PrunedKeepsNewest` | dependency/core/distributor/distributor.py:398-420 | pruning keeps as many as configured, each later than every record dropped or, at the same time, of a greater source or, of the same source, a greater task |
| `Polling.PollFacts` | dependency/core/distributor/distributor.py:204-255 | a poll returns only pending records, once each and in order; its ticket is at least every pending time |
| `Polling.NothingTwice` | dependency/core/distributor/distributor.py:143-255 | over any run tickets never decrease and no record is returned twice, whatever clock, sizes and pruning do |
| `Polling.AllReturnedIff` | dependency/core/distributor/distributor.py:218-230 | a poll returns everything pending exactly if it is unlimited or no more is pending than its size |
| `Polling.CaughtUpIff` | dependency/core/distributor/distributor.py:143-255 | with strictly increasing insert times, after every poll the caller has every record still in the table, exactly if each poll is unlimited or at least as large as what is pending when it is made |
| `Polling.EverythingOnceInOrder` | dependency/core/distributor/distributor.py:143-255 | with such polls and strictly increasing insert times all that is returned was inserted, and comes once each and in order of time |
| `Polling.LimitedPollSkips` | dependency/core/distributor/distributor.py:218-230 | a pending record a poll leaves out is not later than the ticket it hands back |
| `Polling.SkippedForGood` | dependency/core/distributor/distributor.py:204-255 | a record a run has not returned by the time its ticket has passed it is returned by no continuation of the run |
| `Polling.OlderIsLost` | dependency/core/distributor/distributor.py:204-255 | two results saved and then polled for one: the older one stays in the table and is never returned, whatever follows |

## Left out

- Network, HTTP, Redis, SQLite, Kubernetes and file access: each call is the atomic operation it performs; what a call returns is a parameter.
- The retrieval's advisory lock: the atomic take-all is enough without it; key expiry is the step `Expire`.
- Device choice, transfer between devices and the fallback in sending a task to a service, which only ends when the local device is not the cloud device.
- Fresh ids: task ids, uuids and instances are counted up, so collisions of random ids are not modelled.
- Time tickets, logging, health checks, ports and node lookup: they do not decide the protocol.
- Controllers.Controller.SubmitTask: where the task goes next is its service or the distributor; the device chosen, a transfer to another device and the action reported are left out.
- Controllers.Controller.SubmitRoot: the action computed from the children's actions is left out.
- Controllers.Controller.ProcessReturn: one call without interruption, and of each action whether it is to wait; interleaved calls are runs of the step machine in `Protocol.dfy`.
- Controllers.Controller.RetrieveJoint: looks common ancestors up in the configuration's table; `AcceptedRuns.SearchTable` ties that table to the search.
- ResultsComplete.DeliveredComplete: covering every joint is sufficient for complete deliveries and `ResultsExact.HoldsIff` makes it exact for tasks on their way; that a result dropped at one joint can come back at a later one is not worked out. It is no recursion over the joints alone, since who is last at one joint can exclude who is at another (`LastChoices.CrossedNeverBoth`).
- Pipeline.CheckIsPipeline: stated for graphs whose successor and predecessor lists mirror each other, as after validation.
- PipelineConversion.ExtractPipelineDeploymentFromDag: stated for graphs whose lists mirror each other, as after validation.
- ShortestPath.WeightedShortestPath: stated for non-negative weights, without which the algorithm promises nothing.
- Controllers.Controller.MergeTasks: looks the common ancestor up in the configuration's table instead of calling the solver, and merges sets of held results; `TaskMerge.dfy` has the merge with the solver and the services themselves.
- Nodes of a graph are values in a map field: sharing of node and list objects between a graph and the dictionary it was read from is not modelled, nor is the dictionary being changed by repairs.
- Path solvers require every listed successor to be a node, as every validated graph ensures; the error an unvalidated graph raises inside a loop is not modelled.
- Heap ties: entries of equal key leave the heap in any order, so the results hold for the order by name too.
- DagExtraction.ExtractDagFromDict: for dictionaries that hold a reserved key themselves only validity of the result and its services are stated.
- DagExtraction.FromDict: of a service's times only transmission and execution are modelled, not the time spent in the processor alone.
- PipelineConversion.ExtractDagFromPipelineDeployment: for repeated, empty or reserved names only validity of an accepted graph is stated.
- DagCheck.CheckDag: on drawings whose lists disagree or whose start list is not the parentless nodes only termination and the error's cause are stated.
- InstanceCache.ConfigBoundInstanceCache.SyncAndGet: a configuration is its stable key and hash; the functions computing them, a raising factory, and a negative capacity are not modelled; what the reconfigure function answers is given, an exception being no.
- Floating point: weights, boxes, confidences and times are reals, so rounding and NaN are not modelled.
- NonMaxSuppression.Suppress: requires predictions of non-negative size, an image of at least one pixel, and that every box to be kept suppresses itself, without which the loop of the original does not end; equal confidences are taken in the given order, which the original's sort leaves open.
- AccuracyEstimation.CalculateAccuracy: ground-truth frames are given instead of looked up by index and scaled.
- VideoPlayer.VideoDatasetPlayer.ReadFrame: a clip always opens and always decodes the same number of frames; seeking is exact; in a cycle some clip must decode a frame, without which the loop of the original does not end (`VideoPlayer.LoopFindsIff`).
- VideoPlayer.BuildClips: paths, file types and the manifest's header are not modelled; the probed frame count is given.
- Polling.Distributor.QueryResult: records of equal time are taken in order of insertion, which the query leaves open, and the database file always exists.
- The backend's document diff (`check_and_update_docs_list`), template filling, image names and deep merging: they would only add easy members.
- JSON encoding, schedulers, hooks, the user interface, model inference, tracking and export.
