# devspace dependency orchestration, modelled in Dafny

This project models how devspace orchestrates the dependencies of a project.

- **Dependency graph.** Resolved dependencies form a graph whose nodes live in a registry keyed by ID, under a sentinel root. A node has an ordered child list and a set of parents. A dependency shared by several parents is one node with several parents.
- **Scheduler.** A pool of workers asks a shared provider for the next unit of work and executes it. A worker stops at the first lookup error, at the first failed unit, or when no work is left.
- **Orchestrator.** `handleDependencies` drives the scheduler with a provider that walks the graph:
  - Forward actions (resolve, build, deploy, render, command) take the first unvisited non-root node without children in post-order. After the action they remove that node from the graph, so its parents become leaves.
  - The reverse action (purge) takes the first unvisited non-root node in pre-order and removes nothing.
  - Every node handed out goes through `performAction`. That gates on the root, the name filter and the skip list, runs the hooks and the action, and records the dependency as executed on success.
  - The caller gets the executed root dependencies.
- **Dependency object.** A `Dependency` decides through `prepare` whether its directory changed since the last run: it compares a directory hash with the cached one. `Build`, `Deploy`, `Render` and `Purge` update the cache and the built images.
- **Registry helpers.** Two helpers from the image registry code: `GetServicePort` and `IsLocalRegistryDisabled`.

## Modules

| file | module | contents |
|---|---|---|
| `wrappers.dfy` | `Wrappers` | `Option`, `Result` |
| `errors.dfy` | `Errors` | the error values and their texts (`Cyclic dependency found: ...`, `... not found`) |
| `graph.dfy` | `DependencyGraph` | the registry as a value. Covers traversals, searches, `findFirstPath`, `getNextLeaf`, and the edits `insertNodeAt`, `addEdge` and `removeNode` as functions. |
| `graph_facts.dfy` | `DependencyGraphFacts` | what the traversals reach, and how the edits keep the registry consistent and acyclic |
| `graph_store.dfy` | `DependencyGraphStore` | the pruning order, and the `Graph` class whose methods edit the registry in place |
| `graph_examples.dfy` | `DependencyGraphExamples` | the graph of `graph_test.go` and everything that test asserts about it |
| `scheduler.dfy` | `Scheduler` | the provider, the worker loop, `Run`, and what a run keeps and returns |
| `scheduler_examples.dfy` | `SchedulerExamples` | the queue provider of `scheduler_test.go` and the four tests |
| `manager.dfy` | `DependencyManager` | `performAction`, both providers, `handleDependencies`, `Command`, and what runs in each direction |
| `dependency.dfy` | `DependencyObject` | `prepare`, `buildImages`, `Build`, `Deploy`, `Render` and `Purge` over the dependency cache |
| `registry.dfy` | `Registry` | `GetServicePort`, `IsLocalRegistryDisabled` |

### How the model is built

- **The graph.** The graph is a value of type `map<string, Node>` in which `Node(childs: seq<string>, parents: set<string>)`.
  - Traversals walk the unfolded tree, so a shared node appears once per path that reaches it.
  - A traversal carries the IDs on the current path and does not re-enter them. This makes it total; on an acyclic graph it changes nothing.
  - `Acyclic` means that some rank decreases along every edge.
  - The graph's own implementation file is not part of this model. Its behaviour is the one its test pins down:
    - the traversal orders;
    - the cycle message;
    - that re-inserting an ID reuses the node;
    - the pruning order;
    - that `len()` counts distinct non-root nodes.
  - `removeNode` fails for a node that still has children. It does nothing for an unknown ID. Otherwise it takes the node out of the child list of each of its parents.
- **The scheduler.** The scheduler's provider works on an explicit state: the variables the Go closures capture. `k` workers are modelled as running one after another, which is one legal interleaving of the goroutines.
  - With one worker, as `Command` and `Render` use, this is exactly what the code does.
  - The first error is the first in worker order.
- **Foreign calls** are inputs or oracles:
  - the resolver's result is a `Result<Arena, Error>`;
  - the number of CPUs is a parameter;
  - the plugin hooks, the action and the log text are read from an `Outcome` per dependency;
  - hashing, `os.Getwd`, `os.Chdir`, namespace creation, the build and deploy controllers and the config saver are read from `Effects`.
- **The reverse provider does not remove nodes.** It never takes a node out of the graph (`dependency.go:367-389`). The removal after the action sits in the forward branch (`dependency.go:410-416`), and it happens whether or not the action failed. The model follows the code.

## Model

| member | source | states |
|---|---|---|
| `DependencyGraph.PreOrderFrom` | pkg/devspace/dependency/graph_test.go:64-71 | the pre-order starts at the node itself and lists only registered IDs not on the current path |
| `DependencyGraph.PostOrderFrom` | pkg/devspace/dependency/graph_test.go:73-81 | the post-order ends at the node itself and lists only registered IDs not on the current path |
| `DependencyGraph.Scan` | pkg/devspace/dependency/graph_test.go:99-115 | a search stops at the first ID the visitor accepts, every earlier ID having been passed over; it reports the visitor's first error; it finds nothing only when the visitor passed over every ID |
| `DependencyGraph.GetNextLeaf` | pkg/devspace/dependency/graph_test.go:83-87 | the leaf returned is registered and has no children |
| `DependencyGraph.FindFirstPathFrom` | pkg/devspace/dependency/graph_test.go:52-62 | a path found runs from the start to the target, each step from a node to one of its children |
| `DependencyGraph.Without` | pkg/devspace/dependency/graph_test.go:117-132 | taking an ID out of a child list keeps exactly the other IDs |
| `DependencyGraph.Link` | pkg/devspace/dependency/graph_test.go:27-33 | linking two registered nodes registers nothing new |
| `DependencyGraph.Detached` | pkg/devspace/dependency/graph_test.go:117-132 | removing a node deletes exactly that ID from the registry |
| `DependencyGraphFacts.EveryNodeReached` | pkg/devspace/dependency/graph_test.go:64-81 | in a well-formed acyclic graph every registered node appears in both traversals from the root |
| `DependencyGraphFacts.LeafReached` | pkg/devspace/dependency/graph_test.go:83-87 | a graph with a node besides the root has a non-root leaf that both traversals reach |
| `DependencyGraphFacts.GetNextLeafFirst` | pkg/devspace/dependency/graph_test.go:83-87 | `getNextLeaf` returns the first leaf of the pre-order, and nothing only when no node of the pre-order is a leaf |
| `DependencyGraphFacts.GetNextLeafFinds` | pkg/devspace/dependency/graph_test.go:83-87 | a leaf anywhere in the pre-order makes `getNextLeaf` succeed |
| `DependencyGraphFacts.FirstLeaf` | pkg/devspace/dependency/graph_test.go:73-87 | in an acyclic graph the post-order opens with the first leaf of the pre-order |
| `DependencyGraphFacts.ScanPrefix` | pkg/devspace/dependency/graph_test.go:99-115 | a search that stops inside a sequence stops at the same ID when more IDs follow |
| `DependencyGraphFacts.ChainFromRoot` | pkg/devspace/dependency/graph_test.go:27-33 | following parents upwards from any node of a well-formed acyclic graph ends at the root |
| `DependencyGraphFacts.ChainToLeaf` | pkg/devspace/dependency/graph_test.go:83-87 | following first children downwards ends at a leaf |
| `DependencyGraphFacts.ChainInPreOrder` | pkg/devspace/dependency/graph_test.go:64-71 | the end of every chain from a node is in that node's pre-order |
| `DependencyGraphFacts.ChainInPostOrder` | pkg/devspace/dependency/graph_test.go:73-81 | the end of every chain from a node is in that node's post-order |
| `DependencyGraphFacts.RemoveLeaf` | pkg/devspace/dependency/graph_test.go:121-129 | removing a non-root leaf succeeds. It deletes exactly that node and takes it out of every parent's child list. The graph stays well-formed and acyclic. |
| `DependencyGraphFacts.DetachedAcyclic` | pkg/devspace/dependency/graph_test.go:121-129 | removing a node keeps the graph acyclic |
| `DependencyGraphFacts.DetachedWellFormed` | pkg/devspace/dependency/graph_test.go:121-129 | removing a leaf keeps child lists and parent sets consistent |
| `DependencyGraphFacts.DetachedChilds` | pkg/devspace/dependency/graph_test.go:117-132 | after removing a node, every remaining node keeps its parents, and its child list loses exactly that ID, however many parents listed it |
| `DependencyGraphFacts.FindFirstPathComplete` | pkg/devspace/dependency/graph_test.go:52-62 | `findFirstPath` finds a path exactly when the target is reachable from the start |
| `DependencyGraphFacts.ChainFound` | pkg/devspace/dependency/graph_test.go:58-62 | the depth-first search finds a path along every chain of an acyclic graph |
| `DependencyGraphFacts.LinkWellFormed` | pkg/devspace/dependency/graph_test.go:27-33 | linking two registered nodes keeps the registry consistent |
| `DependencyGraphFacts.LinkFreshWellFormed` | pkg/devspace/dependency/graph_test.go:27-32 | linking a new node under a registered parent keeps the registry consistent |
| `DependencyGraphFacts.LinkFreshAcyclic` | pkg/devspace/dependency/graph_test.go:27-32 | linking a new node cannot close a cycle |
| `DependencyGraphFacts.LinkAcyclic` | pkg/devspace/dependency/graph_test.go:33-50 | linking parent to child when the child does not reach the parent keeps the graph acyclic |
| `DependencyGraphFacts.InsertNodeAtMissingParent` | pkg/devspace/dependency/graph_test.go:22-25 | `insertNodeAt` under an unknown parent fails with "not found" |
| `DependencyGraphFacts.InsertNodeAtCycle` | pkg/devspace/dependency/graph_test.go:36-50 | inserting a registered ID that reaches the parent fails with the cycle: the parent, then the path `findFirstPath` returns from the ID back to the parent, which is a chain of registered nodes |
| `DependencyGraphFacts.InsertNodeAtReuses` | pkg/devspace/dependency/graph_test.go:33 | inserting a registered ID that does not reach the parent reuses the node. The node gains the parent, nothing new is registered, and the graph stays well-formed and acyclic. |
| `DependencyGraphFacts.InsertNodeAtRegisters` | pkg/devspace/dependency/graph_test.go:27-32 | inserting a new ID registers exactly one node, linked under the parent |
| `DependencyGraphFacts.InsertNodeAtKeeps` | pkg/devspace/dependency/graph_test.go:27-50 | whatever `insertNodeAt` makes of a well-formed acyclic graph is well-formed and acyclic |
| `DependencyGraphFacts.LinkFreshShape` | pkg/devspace/dependency/graph_test.go:27-32 | linking a new node adds one node and raises `len()` by one; the node has the parent as its only parent and no children, and the parent's child list gains it at the end |
| `DependencyGraphFacts.AddEdgeOutcome` | pkg/devspace/dependency/graph_test.go:89-97 | `addEdge` fails exactly when an endpoint is unknown, naming it; otherwise it appends the child and keeps the registry consistent |
| `DependencyGraphStore.NextLeafFound` | pkg/devspace/dependency/graph_test.go:121-122 | while nodes besides the root remain, `getNextLeaf(root)` finds a non-root leaf |
| `DependencyGraphStore.NextLeaf` | pkg/devspace/dependency/graph_test.go:121-122 | the leaf the pruning loop takes next is what `getNextLeaf(root)` returns: a registered non-root node without children |
| `DependencyGraphStore.PostOrderStartsWithNextLeaf` | pkg/devspace/dependency/graph_test.go:73-87 | that leaf is the first ID of the post-order from the root |
| `DependencyGraphStore.PruneStep` | pkg/devspace/dependency/graph_test.go:121-129 | removing that leaf succeeds and deletes exactly that ID. The graph stays well-formed and acyclic, and `len()` drops by one. |
| `DependencyGraphStore.Pruned` | pkg/devspace/dependency/graph_test.go:121-129 | the graph after one round of the pruning loop is what `removeNode` returns, and it has one node fewer |
| `DependencyGraphStore.PruneOrder` | pkg/devspace/dependency/graph_test.go:117-132 | the pruning loop takes off `len()` IDs |
| `DependencyGraphStore.PruneOrderStep` | pkg/devspace/dependency/graph_test.go:121-125 | the pruning order is the next leaf followed by the pruning order of the graph without it |
| `DependencyGraphStore.PruneOrderCovers` | pkg/devspace/dependency/graph_test.go:117-132 | pruning takes off exactly the non-root nodes |
| `DependencyGraphStore.PruneOrderDistinct` | pkg/devspace/dependency/graph_test.go:117-132 | pruning takes off each node once, shared nodes included |
| `DependencyGraphStore.PruneOrderLeavesFirst` | pkg/devspace/dependency/graph_test.go:117-132 | a node is taken off only after every one of its original children |
| `DependencyGraphStore.Graph.constructor` | pkg/devspace/dependency/graph_test.go:19 | a new graph holds only the root and has length 0 |
| `DependencyGraphStore.Graph.Len` | pkg/devspace/dependency/graph_test.go:121 | `len()` counts the distinct registered nodes other than the root, and is 0 exactly when only the root is left |
| `DependencyGraphStore.Graph.InsertNodeAt` | pkg/devspace/dependency/graph_test.go:22-50 | the new registry is what `insertNodeAt` computes, or it is unchanged along with the error; a well-formed acyclic graph stays so |
| `DependencyGraphStore.Graph.AddEdge` | pkg/devspace/dependency/graph_test.go:89-97 | the new registry is what `addEdge` computes, or it is unchanged along with the error; a well-formed graph stays so |
| `DependencyGraphStore.Graph.RemoveNode` | pkg/devspace/dependency/graph_test.go:125-128 | the node is detached from each parent in turn, and the final registry is what `removeNode` computes; on error nothing changes |
| `DependencyGraphStore.Graph.TakeNextLeaf` | pkg/devspace/dependency/graph_test.go:121-129 | one round of the pruning loop takes off the leaf `getNextLeaf` returns, which is the first ID of the pruning order; the new registry is exactly `removeNode`'s result for it, well-formed and acyclic with one node fewer |
| `DependencyGraphStore.Graph.Prune` | pkg/devspace/dependency/graph_test.go:117-132 | the loop returns the pruning order of the graph it started from and leaves a well-formed, acyclic graph holding only the root, without children |
| `DependencyGraphExamples.TestUnknownIDs` | pkg/devspace/dependency/graph_test.go:22-25 | inserting under a missing parent fails, and `addEdge` from or to a missing ID fails naming that ID |
| `DependencyGraphExamples.TestBuild` | pkg/devspace/dependency/graph_test.go:27-33 | the six insertions succeed and build the test graph, in which `rootChild2` has two parents |
| `DependencyGraphExamples.TestCycle` | pkg/devspace/dependency/graph_test.go:36-39 | inserting `rootChild3` under `rootChild2Child1Child1` fails with the cycle `rootChild2Child1Child1, rootChild3, rootChild2, rootChild2Child1, rootChild2Child1Child1` |
| `DependencyGraphExamples.TestCycleText` | pkg/devspace/dependency/graph_test.go:40-49 | that error's text is "Cyclic dependency found: " and a newline, then the five IDs, one per line |
| `DependencyGraphExamples.TestNoPath` | pkg/devspace/dependency/graph_test.go:53-56 | there is no path from `rootChild1` to `rootChild2` |
| `DependencyGraphExamples.TestFirstPath` | pkg/devspace/dependency/graph_test.go:59-62 | the first path from the root to `rootChild2Child1Child1` is root, `rootChild2`, `rootChild2Child1`, `rootChild2Child1Child1` |
| `DependencyGraphExamples.TestPreOrder` | pkg/devspace/dependency/graph_test.go:64-71 | the pre-order is the nine IDs the test expects, the shared subtree twice |
| `DependencyGraphExamples.TestPostOrder` | pkg/devspace/dependency/graph_test.go:73-81 | the post-order is the nine IDs the test expects |
| `DependencyGraphExamples.TestNextLeaf` | pkg/devspace/dependency/graph_test.go:83-87 | the next leaf below the root is `rootChild1` |
| `DependencyGraphExamples.TestCountingSearches` | pkg/devspace/dependency/graph_test.go:99-115 | a visitor that accepts the sixth node finds `rootChild3` in pre-order and `rootChild2Child1` in post-order |
| `DependencyGraphExamples.TestArenaValid` | pkg/devspace/dependency/graph_test.go:27-33 | the test graph is well-formed and acyclic |
| `DependencyGraphExamples.TestPruneOrder` | pkg/devspace/dependency/graph_test.go:117-132 | the test graph has length 5, and pruning it takes off `rootChild1, rootChild2Child1Child1, rootChild2Child1, rootChild2, rootChild3` |
| `DependencyGraphExamples.PruneOrderVia` | pkg/devspace/dependency/graph_test.go:121-125 | a leaf returned by `getNextLeaf` can be removed, and the pruning order starts with it |
| `Scheduler.Scheduler.constructor` | pkg/devspace/dependency/scheduler.go:7-17 | `NewScheduler` keeps the concurrency and the provider |
| `Scheduler.Scheduler.RunWorker` | pkg/devspace/dependency/scheduler.go:24-47 | a worker's loop ends with the lookup's error, with nil when no work is left, or with the first failed unit's error, and otherwise keeps going; the result is the one the worker function gives |
| `Scheduler.Scheduler.Run` | pkg/devspace/dependency/scheduler.go:19-56 | `Run` starts `concurrency` workers, each from where the one before stopped, and returns the first error among them |
| `Scheduler.NoWorkers` | pkg/devspace/dependency/scheduler.go:22 | with a concurrency of zero or less, no lookup is made and `Run` returns nil |
| `Scheduler.RunError` | pkg/devspace/dependency/scheduler.go:50-55 | `Run` returns nil iff every worker returned nil; otherwise it returns the error of the first worker that failed |
| `Scheduler.WorkerKeeps` | pkg/devspace/dependency/scheduler.go:24-47 | a worker keeps every invariant that a lookup, and the unit it hands out, keep |
| `Scheduler.WorkerEnds` | pkg/devspace/dependency/scheduler.go:34-36 | a worker that returns nil stops where the provider answered that no work is left |
| `Scheduler.WorkerSucceeds` | pkg/devspace/dependency/scheduler.go:24-47 | a worker for which no lookup and no unit can fail returns nil |
| `Scheduler.WorkersKeep` | pkg/devspace/dependency/scheduler.go:21-48 | a whole run keeps every invariant the provider keeps |
| `Scheduler.WorkerKeepsOnSuccess` | pkg/devspace/dependency/scheduler.go:24-46 | a worker that returns nil keeps every invariant that each successful unit keeps |
| `Scheduler.WorkersKeepOnSuccess` | pkg/devspace/dependency/scheduler.go:21-55 | a run that returns nil keeps every invariant that each successful unit keeps |
| `Scheduler.WorkersEnd` | pkg/devspace/dependency/scheduler.go:21-55 | a run with at least one worker that returns nil ends where the provider has no work left |
| `Scheduler.WorkersSucceed` | pkg/devspace/dependency/scheduler.go:21-55 | a run in which nothing can fail returns nil |
| `SchedulerExamples.QueueProvider` | pkg/devspace/dependency/scheduler_test.go:12-38 | the test's queue provider brings its measure down with every unit it hands out |
| `SchedulerExamples.QueueStep` | pkg/devspace/dependency/scheduler_test.go:12-38 | one turn of a worker over the queue: it stops on an empty queue, stops with the error on a bad item, and otherwise records the item and goes on |
| `SchedulerExamples.QueueWorkerAll` | pkg/devspace/dependency/scheduler_test.go:12-38 | one worker over a queue without bad items runs every item once, in order, and returns nil |
| `SchedulerExamples.QueueWorkerStops` | pkg/devspace/dependency/scheduler_test.go:68-123 | a worker runs the items before the first bad one, consumes the bad one without recording it, and stops with the error |
| `SchedulerExamples.QueueRunsAll` | pkg/devspace/dependency/scheduler_test.go:12-66 | with one or more workers, a queue without bad items is run completely, once per item, in order, however many workers there are |
| `SchedulerExamples.QueueRunFails` | pkg/devspace/dependency/scheduler_test.go:68-123 | with one or more workers, a queue holding a bad item makes the run return the error |
| `SchedulerExamples.TestRun` | pkg/devspace/dependency/scheduler_test.go:12-38 | five items and two workers give five results and nil |
| `SchedulerExamples.TestRunLess` | pkg/devspace/dependency/scheduler_test.go:40-66 | two items and five workers give two results and nil |
| `SchedulerExamples.TestRunWorkErrors` | pkg/devspace/dependency/scheduler_test.go:68-95 | running "three" fails, and the run returns that error |
| `SchedulerExamples.TestRunLookupWorkErrors` | pkg/devspace/dependency/scheduler_test.go:97-123 | looking up "three" fails, and the run returns that error |
| `DependencyManager.Listed` | pkg/devspace/dependency/dependency.go:694-715 | the loop over a name list finds the name iff it is listed |
| `DependencyManager.SkipDependency` | pkg/devspace/dependency/dependency.go:694-701 | `skipDependency` is true iff the name is in the skip list |
| `DependencyManager.FoundDependency` | pkg/devspace/dependency/dependency.go:703-715 | `foundDependency` is true for every name when the filter is empty, and otherwise iff the name is in the filter |
| `DependencyManager.PerformAction` | pkg/devspace/dependency/dependency.go:293-358 | the graph and the visited IDs are never touched. Nothing happens for the root, for a name outside a non-empty filter, or for a skipped name. The dependency is appended to the executed list iff it is selected and the before hook, the action and the after hook succeed; the call returns nil exactly then or when the dependency is not selected. A failed action, when the error hook passes, returns the action's error wrapped with "<action> dependency <name> error <log>". |
| `DependencyManager.ActionErrorText` | pkg/devspace/dependency/dependency.go:325-339 | the text of that wrapped error is the prefix, ": ", then the action error's own text |
| `DependencyManager.Next` | pkg/devspace/dependency/dependency.go:365-421 | the provider hands out only a registered, non-root, not yet visited node, and marks it visited. In the forward direction that node has no children. When it hands out nothing, the state is unchanged and it answers (nil, nil). |
| `DependencyManager.Exec` | pkg/devspace/dependency/dependency.go:384-416 | the work runs the action. The forward work then removes the node, whether or not the action failed; the reverse work leaves the graph as it is. The visited IDs stay as they are. |
| `DependencyManager.StepShrinks` | pkg/devspace/dependency/dependency.go:365-421 | every unit handed out and run lowers the number of unvisited registered nodes |
| `DependencyManager.DependencyProvider` | pkg/devspace/dependency/dependency.go:365-421 | the provider of either direction hands out finitely many units |
| `DependencyManager.Performed` | pkg/devspace/dependency/dependency.go:352 | the executed list built from the units run holds exactly the selected ones whose hooks and action succeeded |
| `DependencyManager.TracksStep` | pkg/devspace/dependency/dependency.go:293-358 | handing out and running a unit keeps the executed list equal to the successful selected visited IDs, and keeps `found` equal to "some visited dependency set it" |
| `DependencyManager.WithinStep` | pkg/devspace/dependency/dependency.go:365-421 | one provider step never registers a node and hands out only nodes of the resolved graph |
| `DependencyManager.WithinKept` | pkg/devspace/dependency/dependency.go:365-421 | those facts hold after every lookup and unit, in either direction |
| `DependencyManager.RunWithin` | pkg/devspace/dependency/dependency.go:365-426 | after any run, every visited ID is a node of the resolved graph. The executed list is the successful selected visited IDs, and `found` is set iff some visited dependency set it. |
| `DependencyManager.NothingFails` | pkg/devspace/dependency/dependency.go:293-358 | when every selected dependency's hooks and action succeed, no lookup and no unit fails |
| `DependencyManager.ForwardFinds` | pkg/devspace/dependency/dependency.go:391-408 | while nodes besides the root remain, the forward search finds the next leaf of the remaining graph, which is not yet visited |
| `DependencyManager.ForwardIdle` | pkg/devspace/dependency/dependency.go:391-420 | once only the root is left, the forward search finds nothing |
| `DependencyManager.ForwardStart` | pkg/devspace/dependency/dependency.go:365 | the forward invariant holds before the run: nothing visited, the whole graph left |
| `DependencyManager.ForwardAdvance` | pkg/devspace/dependency/dependency.go:391-417 | a forward step hands out the next leaf, marks it visited and removes it, keeping the visited IDs plus the remaining pruning order equal to the original pruning order |
| `DependencyManager.ForwardStep` | pkg/devspace/dependency/dependency.go:391-420 | every forward step keeps that invariant, and the provider runs out of work only when only the root is left |
| `DependencyManager.ForwardKept` | pkg/devspace/dependency/dependency.go:391-420 | the forward provider keeps the invariant, and every worker that runs out of work finds only the root left |
| `DependencyManager.ForwardOrder` | pkg/devspace/dependency/dependency.go:391-417 | at any point of a forward run the visited IDs are a prefix of the pruning order, distinct, and each comes after all of its original children |
| `DependencyManager.ForwardDone` | pkg/devspace/dependency/dependency.go:391-420 | when only the root is left, the visited IDs are the whole pruning order, that is every non-root node |
| `DependencyManager.ForwardRun` | pkg/devspace/dependency/dependency.go:391-426 | after any forward run the visited IDs are a prefix of the pruning order, distinct, children first, and the executed list is their successful selected part |
| `DependencyManager.ForwardDrains` | pkg/devspace/dependency/dependency.go:391-426 | when every selected action succeeds, a forward run with one or more workers returns nil and leaves only the root. It hands out every non-root node exactly once, after all of its children, in pruning order. |
| `DependencyManager.FirstOccurrences` | pkg/devspace/dependency/dependency.go:368-379 | the IDs of a traversal other than the root, each at its first occurrence: exactly the traversal's non-root IDs, each once |
| `DependencyManager.FirstOccurrencesStable` | pkg/devspace/dependency/dependency.go:368-379 | passing over the root or an already visited ID adds nothing |
| `DependencyManager.FirstOccurrencesNext` | pkg/devspace/dependency/dependency.go:368-379 | the first unvisited non-root ID is the next one added |
| `DependencyManager.FreshIdle` | pkg/devspace/dependency/dependency.go:367-389 | when the reverse search finds nothing, every non-root ID of the pre-order has been visited |
| `DependencyManager.FreshAt` | pkg/devspace/dependency/dependency.go:368-379 | the reverse search stops at the first ID of the pre-order that is neither the root nor visited |
| `DependencyManager.FreshFound` | pkg/devspace/dependency/dependency.go:367-389 | the node the reverse search finds is the next first occurrence in the pre-order: marking it keeps the visited IDs equal to the first occurrences of a prefix of the pre-order |
| `DependencyManager.ReverseStart` | pkg/devspace/dependency/dependency.go:365 | the reverse invariant holds before the run |
| `DependencyManager.ReverseStep` | pkg/devspace/dependency/dependency.go:367-389 | every reverse step keeps the invariant, and the provider runs out of work only when every non-root ID of the pre-order has been visited |
| `DependencyManager.ReverseKept` | pkg/devspace/dependency/dependency.go:367-420 | the reverse provider keeps the invariant, and every worker that runs out of work finds all of the pre-order visited |
| `DependencyManager.ReverseRun` | pkg/devspace/dependency/dependency.go:367-426 | a reverse run never changes the graph. It hands out each ID at most once, in order of first occurrence in the pre-order, and the executed list is their successful selected part. |
| `DependencyManager.ReverseCovers` | pkg/devspace/dependency/dependency.go:367-426 | when every selected action succeeds, a reverse run with one or more workers returns nil and hands out every non-root node of the pre-order exactly once |
| `DependencyManager.Concurrency` | pkg/devspace/dependency/dependency.go:360-362 | a concurrency of 0 becomes the number of CPUs; any other is kept |
| `DependencyManager.RootsOnly` | pkg/devspace/dependency/dependency.go:436-442 | the result holds exactly the executed dependencies that are root dependencies, and no more of them than were executed |
| `DependencyManager.RootsOnlyAppend` | pkg/devspace/dependency/dependency.go:436-442 | the filter keeps execution order: filtering a concatenation concatenates the filtered parts, and one ID is kept iff it is a root dependency |
| `DependencyManager.Handle` | pkg/devspace/dependency/dependency.go:259-444 | without configured dependencies it returns nil and nil without resolving. A resolve failure is wrapped with "resolve dependencies". A result list and an error never come together. |
| `DependencyManager.HandleDependencies` | pkg/devspace/dependency/dependency.go:259-444 | the method runs the scheduler over the provider and filters the executed list in a loop, returning what `Handle` describes |
| `DependencyManager.RunClean` | pkg/devspace/dependency/dependency.go:293-358 | a run that returns nil handed out no selected dependency whose hooks or action failed |
| `DependencyManager.ForwardEnds` | pkg/devspace/dependency/dependency.go:391-426 | a forward run with one or more workers that returns nil handed out every non-root node |
| `DependencyManager.ReverseEnds` | pkg/devspace/dependency/dependency.go:367-426 | a reverse run with one or more workers that returns nil handed out every non-root node of the pre-order |
| `DependencyManager.HandleFails` | pkg/devspace/dependency/dependency.go:423-426 | a call in which a selected dependency the pre-order reaches fails its before hook, its action or its after hook returns no dependencies and an error |
| `DependencyManager.HandleForward` | pkg/devspace/dependency/dependency.go:391-444 | a forward call in which every selected action succeeds returns nil and, in pruning order, the selected root dependencies |
| `DependencyManager.HandleReverse` | pkg/devspace/dependency/dependency.go:367-444 | a purge in which every selected action succeeds returns nil and, in pre-order of first occurrence, the selected root dependencies |
| `DependencyManager.Command` | pkg/devspace/dependency/dependency.go:128-150 | `Command` returns "couldn't find dependency <name>" whenever no action set `found`, and otherwise the run's error |
| `DependencyManager.CommandNotFound` | pkg/devspace/dependency/dependency.go:128-150 | when no resolved dependency carries the name, `found` stays false |
| `DependencyObject.Cache.constructor` | pkg/devspace/dependency/dependency.go:678-692 | the cache holds the given hashes |
| `DependencyObject.ChangeWorkingDirectory` | pkg/devspace/dependency/dependency.go:663-676 | it succeeds iff both `Getwd` and `Chdir` succeed, returning the old directory; otherwise it returns the error wrapped with "getwd" or "change working directory" |
| `DependencyObject.Prepared` | pkg/devspace/dependency/dependency.go:678-692 | `prepare` leaves the cache alone or records the new hash under the dependency's ID. A non-empty directory comes back only after the hash was recorded, and any error comes with an empty directory. |
| `DependencyObject.PrepareHashFails` | pkg/devspace/dependency/dependency.go:680-683 | a failed hash returns "hash directory" and leaves the cache unchanged |
| `DependencyObject.PrepareSkips` | pkg/devspace/dependency/dependency.go:685-688 | unforced, a hash equal to the cached one returns "" and nil and leaves the cache unchanged |
| `DependencyObject.PrepareRecords` | pkg/devspace/dependency/dependency.go:690-691 | otherwise the new hash is recorded before the directory change, whose result is returned |
| `DependencyObject.PrepareTwice` | pkg/devspace/dependency/dependency.go:678-692 | preparing again, unforced, over the same hash skips the dependency |
| `DependencyObject.PurgedIsPrepared` | pkg/devspace/dependency/dependency.go:603 | once `Purge` deleted the entry, an unforced `prepare` with a non-empty hash processes the dependency again |
| `DependencyObject.Images` | pkg/devspace/dependency/dependency.go:637-661 | a skipped build gives an empty map. Otherwise the result is the build's images or its error. A failed save after a build with images gives "Error saving generated config: ...". |
| `DependencyObject.ImagesAfter` | pkg/devspace/dependency/dependency.go:637-661 | `builtImages` becomes the built map after a successful build and is unchanged otherwise |
| `DependencyObject.Dependency.constructor` | pkg/devspace/dependency/dependency.go:448-467 | a new dependency has no built images |
| `DependencyObject.Dependency.Prepare` | pkg/devspace/dependency/dependency.go:678-692 | the new cache, the directory and the error are what `Prepared` describes |
| `DependencyObject.Dependency.BuildImages` | pkg/devspace/dependency/dependency.go:637-661 | the result is what `Images` describes, and `builtImages` is updated only by a successful build |
| `DependencyObject.Dependency.Build` | pkg/devspace/dependency/dependency.go:488-506 | a prepare error is returned; a skipped prepare is a no-op success; otherwise the build's error is returned |
| `DependencyObject.Dependency.Deploy` | pkg/devspace/dependency/dependency.go:509-557 | a prepare error is returned; a skipped prepare is a no-op success; a namespace failure gives "Unable to create namespace: ..."; otherwise the result is the build's, the deploy's or the save's error in that order |
| `DependencyObject.Deployed` | pkg/devspace/dependency/dependency.go:531-556 | after the namespaces, `Deploy` succeeds iff the build succeeds, the deploy is skipped or succeeds, and the save succeeds |
| `DependencyObject.Dependency.Render` | pkg/devspace/dependency/dependency.go:560-579 | a directory failure is wrapped with "getwd"; otherwise the result is the build's error or the render's |
| `DependencyObject.Dependency.Purge` | pkg/devspace/dependency/dependency.go:582-605 | a directory failure is wrapped with "getwd" and leaves the cache alone. Otherwise `Purge` returns nil and deletes exactly the dependency's cache entry, whatever the controller purge and the save did. |
| `Registry.IsLocalRegistryDisabled` | pkg/devspace/build/registry/util.go:31-33 | true iff the local registry section exists and sets `disable`; false without the section |
| `Registry.FirstNamed` | pkg/devspace/build/registry/util.go:36-40 | the index of the first port with the name, and none iff no port has it |
| `Registry.GetServicePort` | pkg/devspace/build/registry/util.go:35-42 | returns nil iff no port is named "registry"; otherwise a port named "registry", the first in `Spec.Ports` order |
| `Registry.GetServicePortAppend` | pkg/devspace/build/registry/util.go:36-40 | ports listed after a registry port do not change which port is returned |
| `Registry.GetServicePortSkips` | pkg/devspace/build/registry/util.go:36-40 | a port not named "registry" at the front of the list does not change which port is returned |

## Left out

- The graph's implementation file, `graph.go`, is not part of this model. Its operations are modelled from what its test asserts and from how `dependency.go` uses them.
  - `removeNode` on a node that still has children is taken to fail and change nothing.
  - Removing a node detaches it from every parent.
- The "on current path" guard of the traversals is not in the Go code. On a cyclic graph the Go traversals would recurse forever, while the model stops at the repeated ID. On the acyclic graphs the resolver produces the two agree.
- Goroutines and the errgroup join are not modelled: the workers run one after another.
  - `Scheduler.Scheduler.Run` returns the first error in worker order, not in time order.
  - Races on the unlocked `visited` map and executed list are not modelled.
- `Scheduler.Scheduler.Run` is modelled only for providers that run out of work: every member of `Scheduler` requires `Terminating`, a measure that each handed-out unit lowers. The Go `Run` accepts any provider and loops forever on one that never answers no work. The two providers in the code are proved to terminate (`DependencyManager.DependencyProvider`, `SchedulerExamples.QueueProvider`).
- `DependencyManager.DependencyProvider`'s measure, the number of unvisited registered nodes, is a proof device and not part of the code.
- The texts of `Errors.NodeNotFound` and `Errors.StillHasChildren` are placeholders: `graph.go` is not part of this model, and its test checks only that these calls fail.
- The resolver (`Resolve`, with its cycle hint) is not part of this model. Its result is an input.
- `UpdateAll` only calls the resolver and never reaches `handleDependencies`; it is not modelled, like the resolver.
- The wrappers that call `handleDependencies`, and the hooks around them, are not modelled: `ResolveAll` (forward, with an action that does nothing), `BuildAll`, `DeployAll`, `RenderAll` and `PurgeAll`. Each is a single call with fixed arguments; `Command` stands for them.
- `ExecuteCommand`'s shell interpreter is not modelled: `Command`'s action is an oracle.
- The plugin hooks, the build, deploy, render and purge controllers, namespace creation, the config saver, hashing, `os.Getwd` and `os.Chdir` are foreign calls. Their answers are inputs (`Outcome`, `Effects`).
- The deferred change back to the old working directory is not modelled, because the model has no working directory.
- `DependencyObject.Dependency.Deploy` omits the pull-secret step, whose failure is only logged.
- `DependencyObject.Dependency.Purge` does not take the controller purge or the save as inputs, because their failures are only logged.
- `StartSync`, `StartPortForwarding` and `ReplacePods` are delegations to other packages and are not modelled.
- Logging, progress messages and the debug prints are not modelled.
- The per-dependency log buffer is an input string, not a stream.
- In `util.go`, `HasPushPermission`, `IsImageAvailableRemotely` and `CopyImageToRemote` are network code and are not modelled.
- `pipeline/types/pipeline.go` declares an interface only.
- `DependencyGraphExamples.TestCycleText` writes the expected message as a concatenation of the ID constants rather than as one literal.
