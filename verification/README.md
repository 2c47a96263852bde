# Verified model of the fleet manager

This project models the parts of the fleet manager that carry its guarantees, and proves them. Every `.dfy` file
is one module, and `dafny verify dfyconfig.toml` verifies all of them.

**Setting up a deployment** (`NodeNames`, `Dag`, `VariableStack`, `VisitStore`, `Problems`, `Visitor`,
`TopSort`, `CycleSearch`, `CycleExamples`, `HostOrder`, `OrderedJson`, `Triggers`, `Diff`, `DiffMeaning`,
`SetupHosts`, `HostDiff`). The recursive visitors build a graph of node and sentinel cells. They are methods on
objects that share an arena of cells, as in the source, and terminate on every object graph. `VisitStore` holds
the invariant they keep, and `Problems` says what causes each error and with which variables an object is
rendered. The sort takes the greatest ready cell of the cells that the selected sentinels need; what it leaves
over is answered with a cycle. The diff against the stored rows gives the objects to add, modify and remove, and
the triggers; `DiffMeaning` says which these are by the kinds and rows of the objects. `HostDiff` goes from the
visit of one host to its objects, and `SetupHosts` from the hosts to the outcome. `CycleExamples` holds
membership cycles that a user can enter, built by the steps of the visitors.

**Carrying it out** (`Execution*`, `Deployer`, `Fixpoint`, `SetupRuns`, `SecondSetup`). `Execution` specifies
`perform_deploy` as a recursive run over the objects in which scripts, hosts and cancellation are arbitrary; the
class in `Deployer` refines it, and the theorems are about all runs: which objects succeed and are sent
(`ExecutionSuccess`), what follows a failure, what is recorded and sent. `Fixpoint` joins the diff and the run:
a full deployment that succeeds is followed by an empty one. `SetupRuns` shows that what a setup finds meets the
conditions of the theorems about runs, and `SecondSetup` that after a deployment of all hosts the next setup
finds nothing.

**The shared state** (`StatusMachine`, `Protocol`, `DeployEvents`). One step per critical section, any
interleaving of requests and workers, and the actions replayed by the web client. `DeployEvents` takes a run of
`perform_deploy` as events of the protocol.

**The registry** (`Manifests`, `ManifestPaths`, `Prune`, `PruneRule`, `Uploads`, `UploadServer`). Mark and sweep
over nested manifests, which images the prune rule keeps, and the upload state machine of the Docker Registry
HTTP API V2, with SHA-256 as an arbitrary function of the bytes.

**Text and streams** (`Metrics*`, `Mustache`, `Rendering`, `MagicScan`, `Framing`, `NaturalOrder`, `Grouping`)
and the **arena** (`Arena`). `Orders`, `Bytes` and `Wrappers` are shared helpers.

## Where the code does not do what it seems to

Each of these is proved, with the exact condition or with an input.

- The variable `shortest_cycle` keeps a longest candidate (`CycleSearch.KeptIsShortestIff`,
  `CycleExamples.LongerCycleIsReported`), and the candidate of a seed with a self loop need not be the self loop
  (`CycleSearch.FindCycle`, `CycleExamples.SelfLoopPassedOver`).
- Triggers that are the same can be fired twice: they are sorted by `json_cmp`, which looks at the order of
  object fields, and compared by `==`, which does not; `serde_json` keeps the order of fields here
  (`Triggers.FiredOnceIff`, `Triggers.FiredTwiceExample`, `OrderedJson.SameMeaningDifferentOrder`). The comment on
  `JsonCmp` promises a total ordering; it is one on values as they are written. Orders of fields meet when
  triggers of removed objects, which are stored ones, come together with computed ones.
- Errors of every host but the last are cleared, and those of the root as soon as there is a host
  (`SetupHosts.InvalidIff`, `SetupHosts.RootErrorsCountIff`). After a cycle on an earlier full host
  the setup can be ready for review with the stored objects of the cycle listed for removal
  (`HostDiff.CycleOnEarlierHostRemoves`, `HostDiff.CycleRemovesExample`).
- Title, triggers and order of a stored object can stay stale (`Fixpoint.DeploymentFreshensIff`,
  `Fixpoint.StaleRowExample`).
- The cache is changed before a batch is run, so after a failure it can differ from the table
  (`ExecutionSent.FailedBatchCacheIff`); no script is sent from it then (`ExecutionSent.DeploymentSendsStored`).
- Nothing leaves an invalid tree, and a setup or deployment whose worker was lost never ends
  (`Protocol.InvalidTreeIsFinal`, `Protocol.DoneReachableIff`).
- `put_blob_upload` does not look at read-only mode; nothing is added all the same (`Uploads.ReadOnlyOnlyShrinks`).
- A put with a wrong place or size, or whose body breaks off, leaves an upload that takes nothing any more until
  it is reaped (`Uploads.PutLeavesIff`, `Uploads.FailedPutEndsUpload`). One that fails on the digest alone leaves
  its file, which no reap removes (`Uploads.OrphanForever`), and so does a single-request push whose body breaks
  off (`Uploads.WholeLeavesIff`); such files go when the server starts again.
- The end of a `Content-Range` is taken as one behind the last byte, where the distribution specification of the
  OCI counts the last byte in, so a chunk announced that way is refused (`Uploads.RangedChunkIff`,
  `Uploads.InclusiveRangeRefused`).
- Metrics: after empty braces a tail may begin with a brace, which is not read back from its print
  (`MetricsExact.ReadBackIffWellFormed`); a space after the comma between properties is refused
  (`MetricsExact.SpaceSpoilsText`).
- `render` runs forever when a delimiter change makes both delimiters empty before ordinary text
  (`Rendering.LoopEndsUnlessStuck`).
- The start marker is not seen when its first occurrence ends the output (`MagicScan.MarkerAtTheEndIsMissed`).
- `numeric_sort_key` does not tell numbers apart that differ by 2^32 (`NaturalOrder.NumbersAlone`).

## Assumptions

- Hashes name one manifest of a project, and manifests do not contain themselves (`HashesNameManifests`, `Ranked`
  in the registry modules); both hold for collision-free content addressing.
- A name keeps its type between deployments, contents are not empty (`SetupRuns.TypesKept`), and the types of
  objects, unlike those of triggers, are of kind Sum or Delta (`KindsAsIntended`). What `ExecutionCache` and
  `ExecutionFailures` ask of a list of objects is derived from this for everything that a setup finds
  (`SetupRuns.SetupFits`).
- `Protocol` assumes that the actions reach the client in the order in which the lock was taken.
- The arena assumes elements of non-zero size; the source divides by that size.

## Model

| member | source | states |
|---|---|---|
| NodeNames.NumLenIsDecimalLength | src/bin/server/deployment.rs:56-97 | `num_len` is the length of the printed number for every 64-bit integer, the most negative one included |
| NodeNames.NameLength | src/bin/server/deployment.rs:556-558 | the computed buffer length is the length of the name |
| NodeNames.NameBuffer.Write | src/bin/server/deployment.rs:560-567 | a write succeeds exactly when the text fits, and then appends it |
| NodeNames.WritePrefix | src/bin/server/deployment.rs:561-566 | no write of the prefix fails; the buffer holds the dot or the dotted prefix |
| NodeNames.BuildName | src/bin/server/deployment.rs:556-569 | no write fails, and the buffer is filled to its last byte, so no zero padding is left in a name |
| NodeNames.NodeNameInjective | src/bin/server/deployment.rs:556-573 | different (prefix, id) pairs have different names, which the map of visited nodes relies on |
| Dag.NodeArena.Alloc | src/bin/server/deployment.rs:665-692 | a new cell without edges; all earlier cells keep theirs |
| Dag.NodeArena.Link | src/bin/server/deployment.rs:522-525 | both halves of an edge are pushed, nothing else changes |
| Dag.AddEdgeKeepsInverse | src/bin/server/deployment.rs:522-525 | pushing both halves keeps `prev` and `next` inverse as multisets |
| Dag.AddCellKeepsInverse | src/bin/server/deployment.rs:665-692 | a new cell keeps them inverse |
| Dag.EdgeBothWays | src/bin/server/deployment.rs:200-206 | an edge is in `next` of its start exactly when it is in `prev` of its end |
| VariableStack.AddedIsInScope | src/bin/server/variabels.rs:22-44 | an added value is in scope and no other is touched; one that begins like JSON is not added |
| VariableStack.AddAllAdds | src/bin/server/variabels.rs:22-60 | additions show in the map; where the top frame stays empty the map did not change |
| VariableStack.PopForgetsAdds | src/bin/server/variabels.rs:22-60 | whatever was added to the top frame is gone after a pop, and shadowed values are back |
| VariableStack.PopUndoesPush | src/bin/server/variabels.rs:46-60 | push, any additions and pop leave the stack and the map exactly as they were |
| Visitor.Walker.Enter | src/bin/server/deployment.rs:707-713 | the object goes on the path, and in the prefix exactly when it has variables |
| Visitor.Walker.Leave | src/bin/server/deployment.rs:729-732 | takes back what `Enter` pushed |
| Visitor.Visitor.VisitTop | src/bin/server/deployment.rs:737-759 | terminates on every object graph; the result is the recorded one; the set of ids being visited is restored; no result only with an error |
| Visitor.Visitor.VisitNewTop | src/bin/server/deployment.rs:742-758 | visits an id once, records the result whether it succeeded or not, ends the visit |
| Visitor.Visitor.Visit | src/bin/server/deployment.rs:548-627 | terminates by (ids not being visited at the top, objects not on the path); path, prefix and variables are exactly restored on success and on every error; the graph only grows; the result is the pair entered under the name of prefix and id |
| Visitor.Visitor.VisitNew | src/bin/server/deployment.rs:574-626 | an error only with its cause: the object or its type is missing, a chain of members leads from the object to itself, or rendering refuses it; otherwise members and dependencies are linked |
| Visitor.Visitor.VisitScoped | src/bin/server/deployment.rs:601-614 | push, inner visit and pop leave the variables as they were on success and on error |
| Visitor.Visitor.VisitInner | src/bin/server/deployment.rs:629-735 | on success a new pair is entered under its name and, without errors, linked to every member; on error nothing is entered |
| Visitor.Visitor.NewPair | src/bin/server/deployment.rs:665-696 | sentinel and node are allocated and joined, and entered under the name |
| Visitor.Visitor.VisitMembers | src/bin/server/deployment.rs:702-733 | members are visited with the object on the path; path and prefix are restored |
| Visitor.Visitor.HandleContains | src/bin/server/deployment.rs:509-532 | without errors every member is linked both ways: node to node and sentinel to sentinel |
| Visitor.Visitor.VisitChild | src/bin/server/deployment.rs:519-530 | one member, under the name of the present prefix, is visited and linked, or its error is reported |
| Visitor.Visitor.EnterMembers | src/bin/server/deployment.rs:706-713 | the object goes on the path, and its members are from now on visited under one prefix: that of the object, with the object if it has variables |
| Visitor.Visitor.LinkChild | src/bin/server/deployment.rs:520-525 | the four pushes keep the invariant and make the member lie inside the container |
| Visitor.Visitor.HandleAllDepends | src/bin/server/deployment.rs:621-625 | once the dependencies are linked the name is complete and may be closed |
| Visitor.Visitor.HandleDepends | src/bin/server/deployment.rs:534-546 | without errors the node waits for the sentinel of every dependency |
| Visitor.Visitor.VisitDependency | src/bin/server/deployment.rs:540-544 | a dependency is visited at the top level, with its own path and variables |
| Visitor.Visitor.LinkDependency | src/bin/server/deployment.rs:541-544 | one edge from the sentinel of the dependency to the node |
| Visitor.Visitor.VisitHost | src/bin/server/deployment.rs:841-848 | every reported problem has its cause, and there is none if all that is reached exists, has no cycle through members and dependencies and is rendered; after a host without errors every visited name has exactly the edges that its members, under their names, and its dependencies call for, what was visited is exactly what the members of the host reach, and each was rendered with the variables of the objects in its name |
| Problems.HealthyHasNone | src/bin/server/deployment.rs:548-627 | where everything reached exists, members and dependencies have a smaller rank and rendering succeeds, no problem has a cause |
| VisitStore.VisitedAreClosed | src/bin/server/deployment.rs:509-546 | without errors the members and dependencies of everything visited are visited, and all of it exists |
| VisitStore.ListedIsLinked | src/bin/server/deployment.rs:509-546 | without errors what an object and its type list as members lies inside it, and it waits for what they list as dependencies |
| VisitStore.ReachExists | src/bin/server/deployment.rs:841-848 | there is a least set of ids that holds the members of the host and is closed under members and dependencies |
| VisitStore.SetInnerValid | src/bin/server/deployment.rs:706-713 | fixing the prefix of the members keeps the invariant |
| VisitStore.StepKeepsValid | src/bin/server/deployment.rs:548-759 | what one step has to show to keep the invariant of all visits |
| VisitStore.AddPairValid | src/bin/server/deployment.rs:665-696 | entering a pair keeps the invariant and opens its name |
| VisitStore.LinkChildValid | src/bin/server/deployment.rs:520-525 | linking a member keeps the invariant; both edges are justified |
| VisitStore.LinkDependencyValid | src/bin/server/deployment.rs:541-544 | linking a dependency keeps the invariant; the edge is justified |
| VisitStore.SetTopValid | src/bin/server/deployment.rs:756-757 | recording a top result keeps the invariant; a missing result needs an error |
| VisitStore.CloseName | src/bin/server/deployment.rs:621-626 | a name may be closed exactly when it is complete, or errors were reported, or another visit has it open |
| TopSort.CountClosure | src/bin/server/deployment.rs:884-893 | finds the least set that holds the seeds and is closed under `prev`; each count becomes the number of in-edges |
| TopSort.FillHeap | src/bin/server/deployment.rs:895-907 | every needed cell gets the order of its type; the heap holds exactly the cells without in-edges |
| TopSort.PopGreatest | src/bin/server/deployment.rs:762-799 | the popped cell has the greatest (type order, id); ties are not determined |
| TopSort.Release | src/bin/server/deployment.rs:945-955 | each count stays the number of in-edges from cells that are left; none goes below zero |
| TopSort.Sort | src/bin/server/deployment.rs:943-956 | cells come out one by one, each a ready one with the greatest key, until nothing that is left is ready |
| TopSort.EmittedOnce | src/bin/server/deployment.rs:943-956 | every needed cell comes out exactly once or is left over |
| TopSort.PrevComesFirst | src/bin/server/deployment.rs:943-956 | a cell comes after everything it has an in-edge from |
| TopSort.LeftoverIsGreatestStuck | src/bin/server/deployment.rs:943-956 | what is left over does not depend on ties: it is the greatest set in which nothing is ready |
| TopSort.StuckHasCycle | src/bin/server/deployment.rs:1013-1067 | where nothing is ready there is a cycle |
| TopSort.CycleIsStuck | src/bin/server/deployment.rs:1013-1067 | on a cycle nothing is ready |
| TopSort.LeftoverIffCycle | src/bin/server/deployment.rs:943-1013 | cells are left over exactly when a needed cell is on a cycle, and all such cells are left over |
| CycleSearch.Pour | src/bin/server/deployment.rs:1026-1030 | pouring one stack into the other reverses it |
| CycleSearch.FirstFrontier | src/bin/server/deployment.rs:1018-1024 | the first level is the list of successors of the seed |
| CycleSearch.Expand | src/bin/server/deployment.rs:1031-1043 | either an edge back to the seed is found, or all new successors enter the tree one level on |
| CycleSearch.Follow | src/bin/server/deployment.rs:1044-1053 | the back pointers always lead to the seed: "Internal error" is unreachable |
| CycleSearch.NoShortCycle | src/bin/server/deployment.rs:1025-1043 | while level d is searched every closed walk through the seed of two edges or more has more than d edges |
| CycleSearch.ExhaustedMeansNone | src/bin/server/deployment.rs:1025-1026 | both stacks run empty only if no cycle goes through the seed |
| CycleSearch.FoundIsShortest | src/bin/server/deployment.rs:1044-1053 | the found cycle has the least length exactly when no self loop of the seed was passed over |
| CycleSearch.SelfLoopFoundAtOnce | src/bin/server/deployment.rs:1031-1053 | with a self loop the search ends on the first level, at the first successor of the seed that points back; that is the seed itself exactly when no other comes before it |
| CycleSearch.FindCycle | src/bin/server/deployment.rs:1016-1062 | none exactly when no cycle goes through the seed; otherwise a real closed walk in reverse, shortest exactly when no self loop is passed over |
| CycleSearch.ReversedCycleIsClosedWalk | src/bin/server/deployment.rs:1045-1053 | the reported list read backwards is a closed walk along `next` |
| CycleSearch.ReportCycle | src/bin/server/deployment.rs:1013-1067 | with leftovers a cycle is always kept, whatever the order of seeds: "No cycle found" is unreachable |
| CycleSearch.KeptIsShortestIff | src/bin/server/deployment.rs:1013-1062 | the kept cycle is a shortest one through the left cells exactly when no self loop is passed over and all left cells on cycles have shortest cycles of one length |
| CycleExamples.BothGraph | src/bin/server/deployment.rs:509-532 | two membership cycles, of two and of three objects: the steps of the visitors build this graph without an error |
| CycleExamples.LongerCycleIsReported | src/bin/server/deployment.rs:1054-1059 | on that graph the cycle of the three objects is reported, although the one of two objects is shorter |
| CycleExamples.SelfGraph | src/bin/server/deployment.rs:509-532 | an object in itself and in a cycle with another: the steps of the visitors build this graph without an error |
| CycleExamples.SelfLoopPassedOver | src/bin/server/deployment.rs:1031-1053 | on that graph the candidate from the object in itself is not its self loop |
| CycleExamples.MutualGraph | src/bin/server/deployment.rs:509-532 | two objects in one another: the steps of the visitors build this graph without an error |
| HostOrder.ContainerFirst | src/bin/server/deployment.rs:522-525 | a container comes out before its members at any depth, and their sentinels before its own |
| HostOrder.DependencyContentsFirst | src/bin/server/deployment.rs:541-544 | everything contained at any depth in a dependency comes out before the dependent object |
| HostOrder.ChainIsVisited | src/bin/server/deployment.rs:509-532 | without errors every chain of members that starts at a visited object has its cells, one inside the other |
| HostOrder.MembersComeInside | src/bin/server/deployment.rs:522-525 | down every chain of members the last object comes out after the first, and its sentinel before |
| HostOrder.DependenciesComeFirst | src/bin/server/deployment.rs:534-546 | an object comes out after everything that is contained at any depth in what it depends on |
| HostOrder.EmittedNamesDistinct | src/bin/server/deployment.rs:665-698 | no two node cells carry one name |
| HostOrder.GreatestOrderFirst | src/bin/server/deployment.rs:762-799 | no other cell that is left and ready at its turn has a greater deploy order than the one that comes out, nor with the same order a greater id; a type without one counts as 0 |
| HostOrder.FreeCellsByOrder | src/bin/server/deployment.rs:895-956 | of two cells that wait for nothing the one whose type declares the greater deploy order comes out first |
| HostOrder.SeedsAreAsked | src/bin/server/deployment.rs:850-882 | the seeds are the sentinels of what was asked for: everything for all hosts or this one, otherwise the object of that id or the objects of that type; none exactly if nothing was |
| HostOrder.ClosureCovers | src/bin/server/deployment.rs:850-893 | what is needed covers what was asked for and whatever it waits for, and nothing more |
| HostOrder.AllSentinelsNeedAll | src/bin/server/deployment.rs:860-893 | from all sentinels every cell is needed |
| HostOrder.SelectSentinels | src/bin/server/deployment.rs:850-877 | the seeds are the sentinels of exactly the selected names, each once |
| HostOrder.SortSeeds | src/bin/server/deployment.rs:884-1067 | counts, sorts and answers leftovers with a cycle, from the seeds |
| HostOrder.OrderHost | src/bin/server/deployment.rs:841-1067 | fails exactly with errors, each of which has its cause, so not on a healthy host; nothing exactly if nothing was asked for; otherwise what was visited is what the host reaches, what is ordered or left over covers what was asked for, on a full host every cell, and leftovers give a cycle |
| OrderedJson.JsonCmpIsTotalOrder | src/bin/server/ordered_json.rs:14-31 | `json_cmp` is antisymmetric, transitive and total; only identical values are equal in it |
| OrderedJson.NumbersAscend | src/bin/server/ordered_json.rs:33-70 | numbers are ordered by value only within their kind: floats come before integers above the signed range, and these before all others |
| OrderedJson.FirstFieldDecides | src/bin/server/ordered_json.rs:73-88 | objects are ordered by the first field that differs, by its key and then its value; a beginning comes first |
| OrderedJson.CmpEqual | src/bin/server/ordered_json.rs:20-31 | equal in the order means identical, the order of object fields included |
| OrderedJson.CmpTransitive | src/bin/server/ordered_json.rs:20-31 | transitive, over all kinds of values and numbers |
| OrderedJson.SameMeaningDifferentOrder | src/bin/server/ordered_json.rs:74-88 | two equal objects with their fields in another order are not equal for `json_cmp` |
| Diff.TakeRows | src/bin/server/deployment.rs:943-1010 | each deployable object takes its row out of the old ones and is compared with it unless this is a redeploy |
| Diff.SortNames | src/bin/server/deployment.rs:1105-1113 | the rows to remove, by deployment order and then name |
| Diff.RemovalLoop | src/bin/server/deployment.rs:1115-1135 | one removal for each row that is left, in that order; fails exactly on a row without a script |
| Diff.RetainedAreChanges | src/bin/server/deployment.rs:1089-1101 | the two filters leave exactly the wanted objects whose content or script changed |
| Triggers.DedupTriggers | src/bin/server/deployment.rs:1146-1153 | sorted, and neighbours that are the same are dropped |
| Triggers.FiredAreDue | src/bin/server/deployment.rs:1138-1178 | only triggers that are due are fired, in order, and something is fired for each |
| Triggers.FiredOnceIff | src/bin/server/deployment.rs:1146-1153 | no trigger is fired twice exactly when the order keeps the same triggers together |
| Triggers.OneOrderIsTogether | src/bin/server/deployment.rs:1146-1153 | it does whenever equal contents list their fields in the same order |
| Triggers.FiredTwiceExample | src/bin/server/deployment.rs:1146-1153 | three triggers of which two are the same, with their fields in another order: all three are fired |
| DiffMeaning.EmittedIsMeant | src/bin/server/deployment.rs:975-1101 | an emitted object of kind host, root, collection or hostvar gives no change; any other, if the host wants it, is added when there is no row of its name or on a redeploy, modified exactly when content or script differ, with its texts and the old content; it is never removed |
| DiffMeaning.RowIsRemovedIff | src/bin/server/deployment.rs:1103-1136 | a row is removed exactly on a full host, when no object of its name of a kind that is deployed was emitted, with the title, script, content and triggers of the row |
| DiffMeaning.FiredComeFromTriggers | src/bin/server/deployment.rs:1138-1178 | what is fired is a trigger of an object that is added, modified or removed, with its title, script and content |
| DiffMeaning.TriggersAreFired | src/bin/server/deployment.rs:1138-1178 | each such trigger is fired, by itself or by one of the same type, script and content |
| Diff.ComputeDiff | src/bin/server/deployment.rs:895-1180 | changes, then removals if the host is full, then triggers under the name of their type; fails exactly when an object or a row to be removed has no script |
| SetupHosts.SetupDeploymentInner | src/bin/server/deployment.rs:1205-1281 | the outcome of the setup: the failure of the root, the first failure of a host, the errors of the last host or, without hosts, of the root, or else the objects of all hosts |
| SetupHosts.InvalidIff | src/bin/server/deployment.rs:1205-1262 | a setup fails exactly if the root or a host failed, or the last host reported errors, or there is no host and the root did; otherwise everything found on any host is up for review |
| SetupHosts.MessageHasAllErrors | src/bin/server/deployment.rs:1254-1259 | every error has its own line in the message of an invalid tree, in the order reported |
| SetupHosts.RootErrorsCountIff | src/bin/server/deployment.rs:1207-1228 | errors of the root make no difference exactly if there is a host |
| SetupHosts.NotEmittedIsRemoved | src/bin/server/deployment.rs:1103-1136 | on a full host a stored name that was not emitted is listed for removal |
| HostDiff.CellsAreKnown | src/bin/server/deployment.rs:969-974 | objects and types of emitted cells exist, so no cell is passed over and "Missing type" is unreachable |
| HostDiff.EmittedCells | src/bin/server/deployment.rs:957-1000 | an emitted object has the name of a cell of the order, and each node cell of the order is emitted |
| HostDiff.EmittedSays | src/bin/server/deployment.rs:957-1009 | an emitted object carries the id, type, name of the type and texts of its cell, and the deploy order that the type declares, or 0 |
| HostDiff.SaidByName | src/bin/server/deployment.rs:574-735 | what an emitted object says depends on its name alone, however and from where it was first visited: its texts are those of its object with the variables of the objects in the name, from the outermost in, so taking a visited name again is right |
| HostDiff.EmittedDistinct | src/bin/server/deployment.rs:957-1000 | emitted objects have distinct names, so each finds its own row |
| HostDiff.TiesEmitTheSame | src/bin/server/deployment.rs:762-799 | however ties are broken the same objects are emitted and the same cells left over |
| HostDiff.EmitCells | src/bin/server/deployment.rs:957-1000 | the loop builds what the cells of the order say, with the order of their type |
| HostDiff.SetupDeploymentHost | src/bin/server/deployment.rs:801-1181 | errors with their causes and no objects, none of them on a healthy host; or nothing, or the diff of what was emitted; a cycle is an error, and the diff is made all the same |
| HostDiff.LeftIsNotEmitted | src/bin/server/deployment.rs:943-1013 | a cell that is left over lends its name to nothing that is emitted |
| HostDiff.CycleOnEarlierHostRemoves | src/bin/server/deployment.rs:1013-1262 | a full host on which the sort got stuck, before a last host without errors: the setup is ready, and every stored object whose cell was left over is listed for removal |
| HostDiff.CycleRemovesExample | src/bin/server/deployment.rs:1013-1262 | a stored object that now is in a cycle on a first host: the setup is ready to remove it |
| Deployer.Deployer.LoadHost | src/bin/server/deployment.rs:1510-1525 | the cache becomes the stored contents of the host, by type |
| Deployer.Deployer.CollectBatch | src/bin/server/deployment.rs:1569-1580 | the batch ends before the first enabled object of another type, host or script; disabled ones are skipped |
| Deployer.Deployer.DeploySum | src/bin/server/deployment.rs:1564-1636 | one batch refines the step of the specification, also when it is cancelled or fails |
| Deployer.Deployer.DeploySingle | src/bin/server/deployment.rs:1638-1693 | so does one object of any other kind |
| Deployer.Deployer.DeployObject | src/bin/server/deployment.rs:1500-1558 | so does the handling of host changes, bad hosts and hosts that are down |
| Deployer.Deployer.RecordBatch | src/bin/server/deployment.rs:1630-1633 | objects are recorded in order up to the first error |
| Deployer.Deployer.PerformDeploy | src/bin/server/deployment.rs:1491-1704 | the whole loop refines the recursive run that the theorems below are about, and announces the statuses of that run in its order |
| ExecutionMarks.RunMarksApply | src/bin/server/deployment.rs:1491-1694 | the announced statuses, one after another, add up to the statuses of the run, however it ends |
| ExecutionOrder.RunConsumesAll | src/bin/server/deployment.rs:1495-1694 | in a finished run every enabled object ends in success or failure, every disabled one is untouched |
| ExecutionOrder.BatchEndIs | src/bin/server/deployment.rs:1571-1580 | a batch is a maximal run of enabled objects with one host, type and script |
| ExecutionOrder.StepSends | src/bin/server/deployment.rs:1605-1608 | a step sends at most one script, none to a bad host, and a Sum script is about such a maximal run |
| ExecutionOrder.RunSendsInOrder | src/bin/server/deployment.rs:1495-1694 | every object is in at most one sent script, and scripts are sent from left to right |
| ExecutionOrder.DeploymentSendsBatches | src/bin/server/deployment.rs:1564-1608 | a sent batch holds enabled objects of its own host, type and script only, and leaves out a later enabled object only if that one, or one between, is of another |
| ExecutionFailures.SumAllOrNothing | src/bin/server/deployment.rs:1610-1634 | all objects of a batch succeed, or all fail in one script and the host is marked bad |
| ExecutionFailures.SilenceAfterFatal | src/bin/server/deployment.rs:1527-1535 | once an object of a host has failed fatally, its later objects all fail and no script is sent for them |
| ExecutionFailures.DeploymentStopsPerHost | src/bin/server/deployment.rs:1491-1704 | the same over every finished deployment whose objects are grouped by host |
| ExecutionSuccess.SucceedsIff | src/bin/server/deployment.rs:1491-1704 | in a run that ends by itself an enabled object succeeds exactly if nothing of its host before its batch failed but trigger scripts, its kind is handled, and it is marked only or the host is up and the script succeeds; it is in a sent script exactly if nothing failed before, its kind is handled, the host is up and it is not marked only |
| ExecutionSuccess.AllSucceed | src/bin/server/deployment.rs:1491-1704 | so everything succeeds if kinds are handled and objects are only marked or hosts are up and scripts succeed |
| ExecutionSuccess.RunFinishes | src/bin/server/deployment.rs:1491-1704 | a run ends by itself if it is not cancelled and what is recorded has an id |
| ExecutionTable.RunRecordsSuccesses | src/bin/server/deployment.rs:1630-1680 | the table ends up with every success of kind Sum or Delta recorded, in order, and nothing else |
| ExecutionTable.SetIsOverlay | src/bin/server/deployment.rs:1706-1743 | recording an object does to the stored contents of its type what the batch does to the cache |
| ExecutionTable.SetKeepsOthers | src/bin/server/deployment.rs:1706-1743 | and nothing to other types and hosts |
| ExecutionCache.SumSendsStored | src/bin/server/deployment.rs:1564-1608 | while the host is not bad, the contents computed for a batch are the stored non-empty ones of the type with the batch applied, and are what is stored after success |
| ExecutionCache.CacheAlwaysAgrees | src/bin/server/deployment.rs:1491-1694 | at every turn of the loop the cache agrees with the table for the current host, unless the host is marked bad |
| ExecutionCache.DeploymentCacheAgrees | src/bin/server/deployment.rs:1491-1694 | the same from the start of a deployment whose objects fit the table |
| ExecutionSent.FailedBatchCacheIff | src/bin/server/deployment.rs:1582-1622 | after a failed batch the cache agrees with the table exactly if the batch would have changed nothing; the host is bad |
| ExecutionSent.RunSendsStored | src/bin/server/deployment.rs:1491-1704 | whatever is sent from any turn on for a batch carries the contents stored at its turn, with the batch applied |
| ExecutionSent.DeploymentSendsStored | src/bin/server/deployment.rs:1491-1704 | the same for every script of a deployment, however it ends |
| SetupRuns.HostResultFound | src/bin/server/deployment.rs:801-1181 | what a host leaves that did not fail is a diff of distinct names with its rows, or nothing |
| SetupRuns.SetupFits | src/bin/server/deployment.rs:1222-1270 | the objects found on distinct hosts fit the table, repeat no name on a host and stand together by host, whatever is enabled |
| SetupRuns.SetupDeploys | src/bin/server/deployment.rs:1491-1704 | so a run over them keeps the cache, sends what is stored, and stops on each host at its first fatal failure |
| Fixpoint.DiffGivesDesired | src/bin/server/deployment.rs:1089-1136 | carrying out the changes and removals of a full deployment gives the desired rows |
| Fixpoint.DesiredIsUpToDate | src/bin/server/deployment.rs:1098-1101 | from the desired rows the next diff that is no redeploy is empty |
| Fixpoint.EachNameOnce | src/bin/server/deployment.rs:943-1136 | each name is added, modified or removed at most once |
| Fixpoint.DiffFits | src/bin/server/deployment.rs:1564-1592 | changed and removed objects fit the stored rows when names keep their types |
| Fixpoint.FullDeploymentReachesFixpoint | src/bin/server/deployment.rs:1491-1743 | a full deployment in which every object of the host succeeds, or is marked, leaves the desired rows, and the next diff of the host is empty |
| SecondSetup.DesiredInAnyOrder | src/bin/server/deployment.rs:943-1010 | whether rows are desired does not depend on the order of what is emitted |
| DiffMeaning.FixpointByKind | src/bin/server/deployment.rs:975-1743 | after a full deployment that succeeds the host has a row with content and script of each object of a deployed kind that it wants, what was stored of those it does not want, and none of objects of other kinds |
| SecondSetup.DeploymentSucceeds | src/bin/server/deployment.rs:1205-1704 | everything that a setup found is deployed with success if nothing is cancelled, kinds are handled and objects are only marked or hosts are up and scripts succeed, which is what the next row asks for |
| SecondSetup.SecondSetupIsEmpty | src/bin/server/deployment.rs:1183-1281 | after all hosts were deployed in full and everything succeeded, the outcome of the next setup is that there is nothing to deploy, in whatever order its sort breaks ties |
| Fixpoint.RowIsFreshIff | src/bin/server/deployment.rs:1098-1101 | after carrying out a diff the row of an object is the one it calls for exactly when it was deployed or had that row |
| Fixpoint.DeploymentFreshensIff | src/bin/server/deployment.rs:1098-1743 | after a run in which the objects of the host succeed, title, triggers and order of a wanted object are stale exactly if it was no redeploy, content and script were stored, and the rest of the row differed |
| Fixpoint.StaleRowExample | src/bin/server/deployment.rs:1098-1101 | an object with a new title alone: the diff of a full deployment is empty and the old title stays |
| StatusMachine.Deployment.BeginSetup | src/bin/server/deployment.rs:1400-1412 | refused exactly outside Done, or ReviewChanges with cancel; otherwise status, message and log are reset and the actions say so |
| StatusMachine.Deployment.EndSetup | src/bin/server/deployment.rs:1268-1279 | ready for review with the new list, or done with a message when it is empty |
| StatusMachine.Deployment.EndSetupInvalid | src/bin/server/deployment.rs:1418-1426 | the tree is invalid, with the reason |
| StatusMachine.Deployment.BeginDeploy | src/bin/server/deployment.rs:1461-1473 | only from ReviewChanges; the worker takes a copy of the list |
| StatusMachine.Deployment.MarkObjects | src/bin/server/deployment.rs:134-141 | statuses of single objects, with one action each |
| StatusMachine.Deployment.EndDeploy | src/bin/server/deployment.rs:1696-1701 | back to Done |
| StatusMachine.Deployment.StopDeploy | src/bin/server/deployment.rs:1755-1772 | from any status the token is cancelled; only a running deployment becomes stopping |
| StatusMachine.Deployment.Cancel | src/bin/server/deployment.rs:1774-1789 | only from ReviewChanges; the list is emptied |
| StatusMachine.Deployment.ToggleEnabled | src/bin/server/deployment.rs:1791-1818 | one object, or all of them, with one action |
| StatusMachine.Deployment.TakeActions | src/bin/server/deployment.rs:165-168 | all delayed actions are handed over once |
| Protocol.DeploymentState.OnMessage | frontend/src/setupSocket.ts:177-194 | the client applies an action or, with an index out of range, fails and changes nothing |
| Protocol.StepSafe | src/bin/server/deployment.rs:183-196 | any step of any worker or request keeps: at most one worker, and only in its own statuses, deploying over a list of the length it took |
| Protocol.EventShows | src/bin/server/deployment.rs:1394-1818 | whatever the interleaving, the whole state after each event in terms of that before: status, message, objects, log and run token; a refused one changes nothing |
| Protocol.DeployingListKept | src/bin/server/deployment.rs:1461-1473 | while one worker deploys only statuses of objects change |
| Protocol.StepMirrors | frontend/src/setupSocket.ts:177-194 | a client that is up to date before a step is up to date after its actions |
| Protocol.EveryRun | src/bin/server/deployment.rs:183-196 | over every interleaving the system stays safe, and a client that gets the actions in lock order ends with the status, message and objects of the server, with no index out of range |
| Protocol.StartIsSafe | src/bin/server/deployment.rs:170-181 | the same from the initial state |
| Protocol.StopCancelsWorker | src/bin/server/deployment.rs:1755-1768 | a stop that finds a deployment under way cancels one run token, and that is the active worker's |
| Protocol.InvalidTreeIsFinal | src/bin/server/deployment.rs:1400-1412 | once a tree is invalid no sequence of requests changes anything |
| Protocol.StuckIsNear | src/bin/server/deployment.rs:1394-1475 | from every safe state at most two events lead to one from which nothing ever leads to Done |
| Protocol.LostDeployIsFinal | src/bin/server/deployment.rs:1461-1475 | after a worker was lost while deploying, no request sequence ever leaves Deploying or Stopping |
| Protocol.DoneReachableIff | src/bin/server/deployment.rs:1394-1800 | some sequence of events leads to Done exactly when the tree is valid and the worker that the status waits for was not lost |
| DeployEvents.EventsMark | src/bin/server/deployment.rs:134-141 | while a worker deploys, the statuses on the server are its marks in order, whatever is requested meanwhile; nothing else of the objects changes |
| DeployEvents.ClientsSeeTheRun | frontend/src/setupSocket.ts:177-194 | if a worker announces what its run announces, every client that was up to date ends with the statuses of that run on the objects it took |
| DeployEvents.RunCanBeAnnounced | src/bin/server/deployment.rs:1461-1694 | the announcements of any run over the list that was taken are possible events |
| Manifests.IntactSurvives | src/bin/server/docker.rs:140-219 | an image whose blobs are all kept is as intact as before and reaches the same blobs |
| Prune.Registry.QueryManifest | src/bin/server/docker.rs:192-205 | the sub-manifest query; any row with the hash will do |
| Prune.Registry.PushIndex | src/bin/server/docker.rs:170-217 | the sub-manifests of an index, stored as blobs or as images, up to the first that is missing |
| Prune.Registry.AddImage | src/bin/server/docker.rs:154-169 | config and layers of an image up to the first that is missing; a missing layer alone does not stop the traversal |
| Prune.Registry.Traverse | src/bin/server/docker.rs:140-219 | terminates; reports missing exactly when something reachable is missing, and otherwise exactly the reachable blobs |
| Prune.Registry.PruneRow | src/bin/server/docker.rs:120-246 | the image keeps its blobs in use exactly when the keep rule holds and nothing is missing; otherwise it is marked as removed |
| Prune.Registry.PruneInner | src/bin/server/docker.rs:77-269 | marks exactly the live images that are not kept and deletes exactly the files that no kept image reaches |
| PruneRule.KeepsIffReason | src/bin/server/docker.rs:75-137 | the keep rule holds exactly if the image is pinned, a deployment of its hash runs, or, for tmp_ci tags, it is under an hour old, and for others it is the newest of a standing tag, or was deployed or used lately, or is under two weeks old |
| PruneRule.PruneKeepsIff | src/bin/server/docker.rs:77-246 | a live image stays live exactly if it is intact and has such a reason; otherwise it is marked with the present time; nothing else of any row changes |
| PruneRule.ImageStaysIff | src/bin/server/docker.rs:77-269 | the same, with soundness and need told by paths through nested manifests; what stays live keeps every blob that it needs |
| PruneRule.FileStaysIff | src/bin/server/docker.rs:247-269 | a file stays exactly if some image that stays live needs it |
| ManifestPaths.ReachedIffNeeded | src/bin/server/docker.rs:140-219 | the recursion reaches a blob exactly if it is listed at the end of a path of manifests |
| ManifestPaths.IntactIffSound | src/bin/server/docker.rs:140-219 | an image is intact exactly if everything at the end of such a path can be read and has its blobs |
| Prune.PruneIsSafe | src/bin/server/docker.rs:77-269 | every image that stays live still has every blob it reached |
| Prune.PruneIsIdempotent | src/bin/server/docker.rs:77-269 | a second prune at the same time changes nothing |
| UploadServer.Server.HandleUpload | src/bin/server/docker_web.rs:282-324 | frames are written, hashed and counted one by one; it fails exactly when the body does not end |
| UploadServer.Server.PostBlobUpload | src/bin/server/docker_web.rs:1150-1178 | a new empty upload; refused in read-only mode |
| UploadServer.Server.PatchBlobUpload | src/bin/server/docker_web.rs:959-1041 | refines the patch of the specification on every path, errors included, and keeps the store valid |
| UploadServer.Server.PutBlobUpload | src/bin/server/docker_web.rs:566-680 | refines the put of the specification on every path, and keeps the store valid |
| UploadServer.Server.ReapUploads | src/bin/server/docker_web.rs:1217-1262 | exactly the uploads idle for ten hours are dropped, with their files |
| Uploads.EveryRunIsValid | src/bin/server/docker_web.rs:282-1262 | over every run of posts, patches, puts, reaps and prunes a blob named d has content that hashes to d, and each upload keeps file, count, range and hash of one concatenation |
| Uploads.PutStoresUpload | src/bin/server/docker_web.rs:597-670 | a put answers with a digest exactly when the body is complete, the size as announced and the digest right; then exactly the uploaded bytes are stored |
| Uploads.PostThenPatch | src/bin/server/docker_web.rs:1150-1178 | a posted upload is empty and takes everything with the first patch |
| Uploads.DigestIsPlain | src/bin/server/docker_web.rs:177-183 | a digest that is accepted is the algorithm, letters and digits, so it has no separator or dot; every one in hexadecimal is accepted |
| Uploads.PatchAppends | src/bin/server/docker_web.rs:992-1041 | a patch appends its frames, also when it fails half way; accepted exactly with the announced place and size |
| Uploads.PutLeavesIff | src/bin/server/docker_web.rs:588-670 | a put leaves the upload listed, without its inner state, exactly if place, size or end of the body are wrong, and leaves the file without an upload exactly if only the digest is wrong |
| Uploads.FailedPutEndsUpload | src/bin/server/docker_web.rs:588-641 | in the first case the upload and its file stay as they are through all requests until a reap finds it stale, and every patch and put for it is answered as concurrent |
| Uploads.WholeLeavesIff | src/bin/server/docker_web.rs:1062-1148 | a blob pushed in one request is answered as created exactly if the digest is well formed and the blob is there already or the complete body matches; a body that breaks off, but not one that falls silent, leaves a file without an upload |
| Uploads.ReapedIffStale | src/bin/server/docker_web.rs:1217-1250 | a reap removes a listed upload and its file exactly if nothing was written to it for ten hours |
| Uploads.OrphanForever | src/bin/server/docker_web.rs:1229-1250 | in the second case no requests ever remove the file, because reaps look at listed uploads only |
| Uploads.RangedChunkIff | src/bin/server/docker_web.rs:995-1034 | a chunk with a range is accepted exactly if it starts where the file ends, the end of the range is one behind its last byte, and a length agrees |
| Uploads.InclusiveRangeRefused | src/bin/server/docker_web.rs:995-1034 | a chunk announced by first and last byte is never accepted: refused at once with its length, found too long without |
| Uploads.UploadsAreSeparate | src/bin/server/docker_web.rs:566-1041 | requests for one upload leave the others alone |
| Uploads.ReadOnlyOnlyShrinks | src/bin/server/docker_web.rs:967-969 | in read-only mode nothing is ever added although `put` does not look at the mode |
| Uploads.ChunkedEqualsWhole | src/bin/server/docker_web.rs:1062-1178 | a blob pushed in any chunks is stored as the same blob pushed in one request |
| Metrics.SpacesAreWhiteSpace | src/bin/sadmin/client_daemon_service.rs:93-206 | what is skipped are the characters with the Unicode property White_Space |
| Metrics.ParsePrintAll | src/bin/sadmin/client_daemon_service.rs:53-215 | any well-formed items are read back from their printed lines |
| MetricsExact.ReadBackIffWellFormed | src/bin/sadmin/client_daemon_service.rs:53-215 | items survive printing and reading back exactly when all of them are well formed |
| MetricsExact.ParseShape | src/bin/sadmin/client_daemon_service.rs:85-215 | every item the parser returns has the shape the printer expects, but for one case |
| MetricsExact.ReprintIsStable | src/bin/sadmin/client_daemon_service.rs:53-215 | reading, printing and reading again changes nothing exactly when no empty braces hid a brace at the start of a tail |
| MetricsExact.SolidAll | src/bin/sadmin/client_daemon_service.rs:85-215 | reading loses characters other than spaces and commas only at empty braces |
| MetricsExact.HiddenBraceExample | src/bin/sadmin/client_daemon_service.rs:123-199 | `a{} {x` is read, but not read back from its print |
| MetricsExact.SpaceAfterComma | src/bin/sadmin/client_daemon_service.rs:131-190 | a space after the comma behind any properties is an error |
| MetricsExact.SpaceSpoilsText | src/bin/sadmin/client_daemon_service.rs:98-210 | a line with such a space makes the text unreadable, whatever readable lines come before it |
| MetricsReader.Cursor.ReadProperties | src/bin/sadmin/client_daemon_service.rs:131-190 | the property loop reads what the grammar says, errors included |
| MetricsReader.Cursor.ReadItem | src/bin/sadmin/client_daemon_service.rs:93-206 | so does the reading of one item |
| MetricsReader.ParseMetrics | src/bin/sadmin/client_daemon_service.rs:85-215 | terminates on every text; the result is that of the grammar, with the same error |
| MetricsReader.DisplayProperties | src/bin/sadmin/client_daemon_service.rs:62-79 | the loop writes a comma before every property but the first |
| MetricsReader.Display | src/bin/sadmin/client_daemon_service.rs:53-83 | writes what the grammar prints |
| Mustache.SplitClean | src/bin/server/mustache.rs:20-50 | the first split is at a delimiter exactly when the text before it is clean of it |
| Mustache.ReadTagIff | src/bin/server/mustache.rs:23-40 | exactly the printed tags are read as that tag: plain, triple and delimiter change |
| Mustache.ScanIffPrinted | src/bin/server/mustache.rs:19-57 | a template is read as pieces and a final text exactly when it is their print and they fit the delimiters in force |
| Rendering.RenderDoneIff | src/bin/server/mustache.rs:7-58 | rendering gives a text exactly when the template is the print of fitting pieces with all names known or allowed, and the text is theirs: values are not read again |
| Rendering.OneMapIsEnough | src/bin/server/mustache.rs:41-43 | outer and inner variables render as one map in which the inner ones win |
| Rendering.MissingIsEmpty | src/bin/server/mustache.rs:41-48 | where unknown variables are allowed, one that is missing renders as one that is empty |
| Rendering.StepKeepsMeaning | src/bin/server/mustache.rs:19-55 | one turn of the loop keeps the meaning, and shortens the template unless the loop is stuck |
| Rendering.LoopEndsUnlessStuck | src/bin/server/mustache.rs:19-57 | the loop runs forever exactly when both delimiters have become empty before a text that is no tag change and the names so far and the empty name are known or allowed; otherwise it ends with the meaning |
| Rendering.StuckNeedsEmptyChange | src/bin/server/mustache.rs:23-36 | only a template that contains `= =` can make it run forever |
| Rendering.StuckExample | src/bin/server/mustache.rs:23-36 | one that does |
| Rendering.Render | src/bin/server/mustache.rs:7-58 | the code returns the meaning of the template |
| MagicScan.WindowSeesAll | src/bin/sadmin/client_daemon_service.rs:1607-1633 | tail and new bytes show the marker exactly when all bytes so far do, and the next tail is the last bytes of all |
| MagicScan.ChunkingDoesNotMatter | src/bin/sadmin/client_daemon_service.rs:1606-1633 | however the output is cut into reads, the marker is reported exactly when it stands in it with a byte after it |
| MagicScan.MarkerAtTheEndIsMissed | src/bin/sadmin/client_daemon_service.rs:1622-1628 | a marker in the output is missed exactly if the output ends with its first occurrence |
| MagicScan.Scanner.ReadStdout | src/bin/sadmin/client_daemon_service.rs:1606-1643 | ready after a read exactly when the marker stands followed in all of stdout; stderr is not touched |
| MagicScan.Scanner.ReadStderr | src/bin/sadmin/client_daemon_service.rs:1644-1680 | the same for stderr |
| MagicScan.Scanner.Search | src/bin/sadmin/client_daemon_service.rs:1624-1628 | the loop looks at every place but the last |
| Framing.SplitsOnce | src/bin/sadmin/client_daemon.rs:160-165 | a stream is cut into messages and leftover in one way only |
| Framing.Receiver.Read | src/bin/sadmin/client_daemon.rs:1446-1485 | after every read the handled messages and the buffer are the cut of all that was received; the buffer has no separator |
| Framing.Receive | src/bin/sadmin/client_daemon.rs:1438-1496 | the same over a whole connection |
| Framing.FramesSurviveChunking | src/bin/sadmin/client_daemon.rs:1446-1485 | whatever the cuts, exactly the sent messages are handled, in order, and the unfinished one stays buffered |
| NaturalOrder.CompareIsPreorder | src/bin/sadmin/list_deployments.rs:80-108 | a total preorder on all names; equal exactly for the same tokens |
| NaturalOrder.NumbersDecide | src/bin/sadmin/list_deployments.rs:85-99 | behind a common beginning two numbers decide by value modulo 2^32, and what follows decides when these are equal |
| NaturalOrder.PrintedSortByValue | src/bin/sadmin/list_deployments.rs:80-108 | printed numbers below 2^32 sort by value |
| NaturalOrder.ZerosDoNotCount | src/bin/sadmin/list_deployments.rs:86-95 | leading zeros do not change a number |
| NaturalOrder.NumbersAlone | src/bin/sadmin/list_deployments.rs:86-95 | numbers below 2^32 sort by value; numbers 2^32 apart are not told apart |
| NaturalOrder.DigitsAreDecimal | src/bin/sadmin/list_deployments.rs:86-95 | the digits are the ten decimal ones, each with its value |
| NaturalOrder.ReadNumber | src/bin/sadmin/list_deployments.rs:86-95 | reads all digits, in 32-bit arithmetic that wraps |
| NaturalOrder.NumericSortKey | src/bin/sadmin/list_deployments.rs:80-108 | the two iterators compute that order |
| Grouping.RunsDistinct | src/bin/sadmin/list_deployments.rs:116-122 | after sorting each key has one run |
| Grouping.LayoutSays | src/bin/sadmin/list_deployments.rs:124-140 | by host exactly if there are fewer than two hosts for each name, otherwise by name; with one deployment on each host or not |
| Grouping.GroupImage | src/bin/sadmin/list_deployments.rs:116-171 | the layout follows from the numbers of hosts and names; every deployment of the image is in one group of its class, sorted |
| Grouping.ByHosts | src/bin/sadmin/list_deployments.rs:162-170 | one group for each host, titled by image and host |
| Grouping.ByNames | src/bin/sadmin/list_deployments.rs:139-161 | one group for each name, in order of title, its members shown under their hosts |
| Grouping.PushKeepsAscending | src/bin/sadmin/list_deployments.rs:144-157 | the map of groups stays ordered by title without repetition |
| Grouping.GroupDeployments | src/bin/sadmin/list_deployments.rs:110-173 | nothing is lost or duplicated, each group is a class of the layout of its image in natural order, and no two groups are of one class |
| Arena.Vec.Push | src/bin/server/arena.rs:43-52 | a vector leaves its block exactly when it is full |
| Arena.Allocator.NewCur | src/bin/server/arena.rs:10-17 | the full vector is kept and the new one has room; no range handed out changes |
| Arena.Allocator.EnsureCapacity | src/bin/server/arena.rs:19-24 | afterwards there is room without growing |
| Arena.Allocator.Append | src/bin/server/arena.rs:48-50 | with room, an element goes in and the block stays: nothing handed out moves |
| Arena.Allocator.Alloc | src/bin/server/arena.rs:43-54 | one new range; all ranges stay live and disjoint and keep their elements |
| Arena.Allocator.AllocSlice | src/bin/server/arena.rs:67-84 | the same for a copied slice, in one stretch |
| Arena.Allocator.AllocSliceRepeated | src/bin/server/arena.rs:86-107 | the same for a repeated value |

## Left out

- Database, network, file, process and cryptographic calls: rows and files are maps, queries do not fail except where a script, host or cancellation outcome stands for them, and a failing query inside `perform_deploy` appears only as a lost worker.
- Template rendering inside the visitors: what a content or a trigger renders to is an arbitrary function of object and variables, with an arbitrary set of failures; the host variables that are collected before the visit are not modelled.
- Vec and HashMap internals: a cell of the graph is an index into growing sequences, and the map of visited names is a map; `Arena` models the memory separately.
- TopSort.PopGreatest: the order of equal keys in the heap is not determined, because the library does not fix it.
- HostOrder.SelectSentinels: the order in which the hash map lists the sentinels is arbitrary.
- HostDiff.SetupDeploymentHost: each host starts from an empty arena, where the source keeps the cells of earlier hosts, to which nothing refers any more; a missing host object and variables that cannot be added count as a failed host.
- HostDiff.EmitCells: title, script, content and triggers of a cell are an arbitrary function of its object and the variables it was rendered with, which the model keeps in their place; the kind of a type and the wording of errors are arbitrary too.
- Grouping.GroupDeployments: the shown name is kept beside the deployment instead of overwriting its name, so that the origin of a row can be stated; `HostEnum` display and the table of host names are one function from host to text.
- Orders.SortBy: some sorted permutation; that the sort of the triggers is stable is not stated, so of several same triggers it is open whose title is kept.
- StatusMachine.Deployment.MarkObjects: log lines and headers are single texts; the formatting of headers is not modelled.
- Protocol.EveryRun: messages are delivered in lock order; the source sends them after the lock is released.
- UploadServer.Server.HandleUpload: a frame is written as a whole; a write that fails half way, the wrap-around of 64-bit counters, and requests that interleave while one holds the upload are not modelled.
- Prune.Registry.PruneInner: one atomic step with times as reals; a push at the same time, a file that cannot be read and a file that cannot be removed are not modelled.
- ExecutionTable.RunRecordsSuccesses: objects whose type has no kind are run but never recorded, as in the source, so the fixpoint requires kind Sum or Delta.
- Fixpoint.FullDeploymentReachesFixpoint: for one host whose objects all succeed; other hosts of the same deployment are arbitrary. `SecondSetup.SecondSetupIsEmpty` is about all hosts.
- MetricsReader.ParseMetrics: two kinds of error instead of messages; positions are in characters, not bytes.
- MagicScan.Scanner.ReadStdout: the marker is shorter than the buffer, and a read fits behind the tail; watchdogs, logs and journal messages are left out.
- Framing.Receive: messages are byte strings; JSON decoding and the handling of messages are left out.
- NaturalOrder.ReadNumber: the sum wraps as in a release build; a debug build stops there.
- Arena.Allocator.Alloc: references are ranges of blocks; lifetimes and drops are left out.
- OrderedJson.JsonCmpIsTotalOrder: floats are reals, so the two zeros are one value; JSON has no NaN.
- Key/value persistence, object versioning, authentication, cost_time_compare, command line formatting and the React components: they would only add easy members.
