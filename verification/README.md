# LexMind: verified model

This project models the algorithms and state machines of LexMind and proves what they promise, for every
input, every run and every interleaving. One module follows one part of the program:

| module | part of the program |
|---|---|
| `Digraph`, `ArtifactDependency`, `ArtifactLineage` | the artifact dependency graph and breadth-first lineage |
| `Dependencies`, `StageRegistry`, `PluginManager` | dependency tables, the stage sort and the three-colour cycle detector |
| `PipelineRetry`, `PipelineModel`, `PipelineOrders`, `PipelineExecution` | retries, checkpoints, resumed runs and the pipeline executor |
| `WorkspaceLock` | the two-level workspace lock as a transition system |
| `OcrCache` | the in-memory OCR cache: FIFO eviction, lazy expiry, counters |
| `ConfigTree`, `ConfigLoader` | deep merge, flattening and layered sources |
| `PollingBackend`, `FileWatcher`, `WatchedFiles` | snapshot polling, the debounce buffer, and the two together |
| `Migrations` | applying and rolling back schema migrations |
| `Scheduler` | jobs, their queue, executor and repository |
| `Layout`, `LayoutTies` | pruning of overlapping layout regions |
| `IdCodec` | id lists stored as comma-separated strings |

How the parts are modelled:

- Objects that the program changes in place are classes whose methods say what the new state is. Where
  several calls matter together, the same operation also exists as a function on values (`Apply`,
  `Advance`, `Merged`, `RunUp`, ...); the method's contract equates the two, and the properties of whole
  runs are lemmas about the function.
- Iterating a Python set or dictionary picks elements in an arbitrary order, so no result depends on one.
- Exceptions are constructors of outcome datatypes. What a stage, a migration, a job handler or another
  thread does, and when a run is cancelled, is left open: the contracts hold for all of it.
- Clock readings are arguments that never decrease; delays, confidences and coordinates are reals; a
  content digest is an opaque string; the storage behind the polling backend is a finite tree.

Where the code does less than its names and documentation suggest, the model follows the code and the
project says what holds instead:

- `deep_merge` is associative exactly on layers whose shapes agree (`ConfigTree.MergeAssociativeIff`).
- A stage gives the result of its successful attempt alone, whatever failed before, exactly when its policy
  allows one attempt only (the default) or a failed attempt never changes what the next one computes
  (`PipelineModel.HarmlessExact`), because the attempts of one run share the context.
- A stage order survives every interruption, whatever its stages compute, exactly when it repeats no stage id
  (`PipelineOrders.OrderRecoversIff`), because a resumed run skips stages by id. A repeated stage whose second
  execution changes nothing does no harm (`PipelineOrders.RepeatedStageDiffersIff`).
- `put` under a stored digest loses another entry exactly when the cache is full and the digest is not the
  oldest one (`OcrCache.ReplacingEvictsIff`); the bound on how long an entry survives is exact (`OcrCache.FreshPutsEvict`).
- The owner that the lock reports is the thread that created the lock object, whoever holds it
  (`WorkspaceLock.ReportedOwnerIsCreator`), and any thread can hold it (`WorkspaceLock.AnyThreadCanOwn`). A
  release by a thread that is not the holder breaks mutual exclusion from every state in which another thread
  owns the workspace (`WorkspaceLock.ForeignReleaseBreaksExclusion`).
- `max_retries` bounds no retries, because attempts are counted at the first start only
  (`Scheduler.RetriesNotCounted`).
- Pruning regions depends on the order of the input exactly when two different regions of equal confidence,
  neither inside a more confident one, contain one another or share a reading order
  (`LayoutTies.OrderIrrelevantIff`); pruning again can drop more exactly when one of two such regions properly
  contains the other and is read before it (`LayoutTies.MergeAgainAlwaysIff`).
- Every run of the migrations of a version list keeps the table a prefix of it exactly when the versions are
  distinct (`Migrations.PrefixIffDistinct`).
- Among non-empty keys, a key can share its flat name with another path exactly when it has a dot with
  something before and after it (`ConfigLoader.KeyCollidesIff`); below an empty key every name is repeated
  (`ConfigLoader.EmptyKeyCollides`). The flat maps alone tell what an override
  shadows exactly when it holds no empty mapping (`ConfigLoader.ShadowsVisibleIff`).

## Model

| member | source | states |
|---|---|---|
| `ArtifactDependency.RunConsistent` | backend/lexmind/artifacts/artifact_dependency.py:34-117 | after every sequence of `add` and `remove` calls the graph is acyclic and the reverse map is the exact converse of the forward map |
| `ArtifactDependency.EdgesOfRun` | backend/lexmind/artifacts/artifact_dependency.py:34-117 | the edges after a run are exactly those of accepted `add` calls that no later `remove` of either end undid |
| `Digraph.AddEdgeAcyclicIff` | backend/lexmind/artifacts/artifact_dependency.py:94-98 | an acyclic graph stays acyclic with a new edge if and only if the child does not already reach the parent, so the guard refuses no harmless edge |
| `ArtifactDependency.DependencyGraph.Add` | backend/lexmind/artifacts/artifact_dependency.py:34-44 | refuses an edge exactly when the child already reaches the parent (a self-dependency is told apart), leaves the graph as it was then, and otherwise adds just that edge, in both directions, and its two ids |
| `ArtifactDependency.DependencyGraph.WouldCreateCycle` | backend/lexmind/artifacts/artifact_dependency.py:94-110 | the stack search terminates on every graph, cyclic ones included, and answers exactly whether the child reaches the parent |
| `ArtifactDependency.DependencyGraph.Remove` | backend/lexmind/artifacts/artifact_dependency.py:112-117 | the id disappears from both maps, every edge not touching it stays, and the maps stay mirrored |
| `ArtifactDependency.InDegrees` | backend/lexmind/artifacts/artifact_dependency.py:75-78 | counting over the forward edges gives every node its number of parents in the reverse map |
| `ArtifactDependency.KahnFinished` | backend/lexmind/artifacts/artifact_dependency.py:80-92 | when the queue runs dry, all nodes are placed if and only if the graph is acyclic, and then in topological order |
| `ArtifactDependency.Kahn` | backend/lexmind/artifacts/artifact_dependency.py:73-92 | on any mirrored edge maps: fails exactly on the cyclic graphs, otherwise lists every id once with each parent before its children |
| `ArtifactDependency.DependencyGraph.TopologicalOrder` | backend/lexmind/artifacts/artifact_dependency.py:73-92 | the same for the object: raises exactly when there is a cycle, otherwise orders all of `all_artifacts` |
| `ArtifactLineage.Search` | backend/lexmind/artifacts/artifact_lineage.py:34-60 | the breadth-first loop finds exactly what the start reaches by one or more edges, each once, in nondecreasing distance, and terminates on cyclic graphs too |
| `ArtifactLineage.ReachPlusConverse` | backend/lexmind/artifacts/artifact_lineage.py:34-60 | x is an ancestor of y if and only if y is a descendant of x |
| `ArtifactLineage.LineageTracker.Ancestors` | backend/lexmind/artifacts/artifact_lineage.py:34-46 | exactly the ids with a path of one or more edges to the artifact, nearest first, never the artifact itself |
| `ArtifactLineage.LineageTracker.Descendants` | backend/lexmind/artifacts/artifact_lineage.py:48-60 | exactly the ids the artifact has a path to, nearest first, never the artifact itself |
| `ArtifactLineage.RootCovers` | backend/lexmind/artifacts/artifact_lineage.py:64-73 | every ancestor lies below one of the collected roots |
| `ArtifactLineage.LineageTracker.FullChain` | backend/lexmind/artifacts/artifact_lineage.py:62-77 | no duplicates; holds the artifact and all its ancestors and nothing outside the graph; starts with a parentless ancestor, or with the artifact when it has none; with at most one root the chain is a topological order from there on, every edge forward; an artifact outside the graph comes after all others |
| `Dependencies.FindMissing` | backend/lexmind/pipeline/pipeline_registry.py:52-58 | reports a missing dependency exactly when one exists, and names a real one |
| `StageRegistry.Toposort.Visit` | backend/lexmind/pipeline/pipeline_registry.py:65-75 | the recursive visit terminates; it fails only on a real cycle and otherwise finishes the stage after everything it depends on |
| `StageRegistry.Sort` | backend/lexmind/pipeline/pipeline_registry.py:60-79 | without missing dependencies: raises exactly on a cycle, otherwise lists every stage once, dependencies first |
| `StageRegistry.TopologicalOrder` | backend/lexmind/pipeline/pipeline_registry.py:47-50 | succeeds exactly on complete acyclic tables; a missing dependency is reported before any cycle |
| `PluginManager.CycleDetector.Visit` | backend/lexmind/plugins/plugin_manager.py:70-80 | one visit of the three-colour search terminates; it fails only on a real cycle below the root and otherwise finishes the node |
| `PluginManager.DetectCycle` | backend/lexmind/plugins/plugin_manager.py:63-85 | with a start: an unknown one is refused, otherwise it fails exactly when a cycle can be reached from it; without one (or with an empty one) exactly when there is any cycle |
| `PluginManager.EverywhereIsAcyclic` | backend/lexmind/plugins/plugin_manager.py:82-85 | searching from every plugin gives the verdict of the stage sort on the same relation |
| `PluginManager.ValidateDependencies` | backend/lexmind/plugins/plugin_manager.py:45-60 | missing dependencies are reported first; a cycle is reported exactly for complete cyclic relations |
| `PipelineRetry.DelayGrows` | backend/lexmind/pipeline/pipeline_retry.py:33-42 | under exponential backoff (base >= 0, multiplier >= 1, cap >= 0) the delay never falls from one attempt to the next and stays within the cap |
| `PipelineRetry.BackoffNeverDecreases` | backend/lexmind/pipeline/pipeline_retry.py:27-42 | the sleeps of one stage run never decrease |
| `PipelineRetry.BackoffBounded` | backend/lexmind/pipeline/pipeline_retry.py:27-42 | the sleeps of a stage run of n attempts sum to at most (n - 1) times the cap |
| `PipelineRetry.ConstantSleeps` | backend/lexmind/pipeline/pipeline_retry.py:27-42 | `never` and `immediate` never sleep; a fixed or custom policy with a positive base delay sleeps exactly that before every retry, and otherwise never |
| `PipelineRetry.BackoffSleeps` | backend/lexmind/pipeline/pipeline_retry.py:27-42 | with positive parameters the i-th retry waits for the base delay times the i-th power of the multiplier, at most the cap |
| `PipelineExecution.PipelineExecutor.RunStage` | backend/lexmind/pipeline/pipeline_executor.py:112-150 | at least one and at most max(1, `max_attempts`) attempts (one under `never`); failure only after all of them; the shared dictionary, counted failures and retries, and sleeps are exactly those of the attempts made |
| `PipelineExecution.PipelineExecutor.RunStages` | backend/lexmind/pipeline/pipeline_executor.py:65-98 | results follow the stages in order, each with what it did to the shared dictionary, the rollback of a failed stage included; completed exactly when every stage is handled and none failed; a run that stops without failure was cancelled; the checkpoint kept extends the first one by the stages completed, and other pipelines' checkpoints are untouched |
| `PipelineExecution.PipelineExecutor.Execute` | backend/lexmind/pipeline/pipeline_executor.py:46-110 | rejects exactly incomplete or cyclic registries without changing anything; without `resume` no stage counts as already completed, whatever is stored; with it, exactly the stored completed ones, and the stored dictionary is merged first; the dictionary goes from stage to stage by effects, failed attempts and the rollback of a failed stage; a complete run of harmless stages applies the effects of the enabled stages in order; the stored checkpoint is untouched or lists the stages completed, the last of them and the dictionary after it |
| `PipelineExecution.PipelineExecutor.ExecuteAll` | backend/lexmind/pipeline/pipeline_executor.py:46-110 | for harmless stages, running a list of fresh contexts one after the other leaves in the store what `RunChain` says; with distinct stages every run that completes, whatever was interrupted before it, ends with the effects of the enabled stages, each applied once |
| `PipelineExecution.TrailEffects` | backend/lexmind/pipeline/pipeline_executor.py:65-98 | the dictionaries that a complete run of harmless stages passes through end with the effects of the stages it executes, whatever attempts failed |
| `PipelineModel.ResolveAppend` | backend/lexmind/pipeline/pipeline.py:39-49 | resolving an order keeps it and leaves out exactly the ids that are not registered |
| `PipelineModel.DirtyIs` | backend/lexmind/pipeline/pipeline_executor.py:118-150 | every failed attempt starts from what the one before it left behind |
| `PipelineModel.HarmlessExact` | backend/lexmind/pipeline/pipeline_executor.py:118-150 | failed attempts, fewer than the policy allows attempts in all, never change a stage's result if and only if the stage is attempted at most once or a single failed attempt never changes what the next one computes |
| `PipelineModel.StraightCompleted` | backend/lexmind/pipeline/pipeline_executor.py:65-90 | an uninterrupted run has completed exactly the enabled stages it handled |
| `PipelineModel.StraightIs` | backend/lexmind/pipeline/pipeline_executor.py:65-90 | an uninterrupted run applies the effects of the enabled stages in order, and with distinct ids lists them in that order |
| `PipelineModel.ResumeContinues` | backend/lexmind/pipeline/pipeline_executor.py:101-110 | resuming from the checkpoint after j stages and handling up to k gives what the uninterrupted run has after k stages |
| `PipelineModel.StepOnTrack` | backend/lexmind/pipeline/pipeline_executor.py:46-110 | whatever is stored after any run, resumed or from scratch, is a checkpoint of the uninterrupted run |
| `PipelineModel.ChainOnTrack` | backend/lexmind/pipeline/pipeline_executor.py:46-110 | the same after any chain of failed, cancelled, fresh and resumed runs |
| `PipelineModel.InterruptedEqualsUninterrupted` | backend/lexmind/pipeline/pipeline_executor.py:46-110 | any such chain whose last run handles all stages ends with the shared dictionary, the ordered completed stages and the stored checkpoint of one uninterrupted run: the effects of the enabled stages in order, and their ids |
| `PipelineModel.EmptyContextKept` | backend/lexmind/pipeline/pipeline_executor.py:101-106 | contexts that start empty meet the assumption of the previous result |
| `PipelineOrders.RepeatedIdDiffers` | backend/lexmind/pipeline/pipeline_executor.py:61-68 | for every order with the same id at two places there are harmless stages for which cancelling after the first and resuming ends with another shared dictionary than one uninterrupted run |
| `PipelineOrders.OrderRecoversIff` | backend/lexmind/pipeline/pipeline_executor.py:46-110 | for an order of registered stage ids, all chains of runs equal the uninterrupted run, for all harmless stages, if and only if no id is repeated |
| `PipelineOrders.RepeatedStageDiffersIff` | backend/lexmind/pipeline/pipeline_executor.py:61-68 | with one stage listed twice, interrupting after the first shows exactly when the stage is enabled and executing it again changes the shared dictionary |
| `PipelineExecution.DependenciesHaveResults` | backend/lexmind/pipeline/pipeline_executor.py:65-90 | in dependency order a stage gets a result only after each of its dependencies has a completed or skipped one |
| `PipelineModel.CountsOneStage` | backend/lexmind/pipeline/pipeline_statistics.py:47-54 | counting changes the record of that stage, or creates it, by exactly those amounts and leaves every other record alone |
| `PipelineModel.CountTotals` | backend/lexmind/pipeline/pipeline_statistics.py:47-68 | counting failures and retries of one stage changes the totals over all stages by exactly those amounts |
| `PipelineExecution.CountImbalance` | backend/lexmind/pipeline/pipeline_statistics.py:60-68 | total failures minus total retries changes by the failures minus the retries counted |
| `WorkspaceLock.StepKeepsInv` | backend/lexmind/workspace/workspace_lock.py:44-75 | every step of every thread, when only holders release, keeps the guard, lock, owner, `_held` and query invariants |
| `WorkspaceLock.RunKeepsInv` | backend/lexmind/workspace/workspace_lock.py:44-75 | so every reachable state of any number of threads and workspaces has them |
| `WorkspaceLock.MutualExclusion` | backend/lexmind/workspace/workspace_lock.py:44-65 | in every reachable state at most one thread owns a workspace |
| `WorkspaceLock.HeldExactly` | backend/lexmind/workspace/workspace_lock.py:52-65 | `_held` lists a workspace exactly when somebody owns it outside lines 52-55 and 64-65; a listed one has its lock taken; a taken lock is missing from `_held` only while its owner is in those lines |
| `WorkspaceLock.QueryAnswersTruly` | backend/lexmind/workspace/workspace_lock.py:67-75 | over every run: `is_locked` answers yes, and `owner` an owner, exactly when some thread owns the workspace outside those lines at that moment; the owner is then the creator |
| `WorkspaceLock.WaitEnds` | backend/lexmind/workspace/workspace_lock.py:52-56 | a waiting thread gets a free lock and owns the workspace, or gives up empty-handed, which takes a positive timeout |
| `WorkspaceLock.CallKeepsArguments` | backend/lexmind/workspace/workspace_lock.py:44-75 | a call stays with its workspace, and an acquire can time out exactly when its timeout is positive |
| `WorkspaceLock.HolderReleases` | backend/lexmind/workspace/workspace_lock.py:58-65 | an undisturbed release by the holder gives up the workspace, forgets it in `_held` and leaves its lock free |
| `WorkspaceLock.ReportedOwnerIsCreator` | backend/lexmind/workspace/workspace_lock.py:38-42 | a reported owner is always the creator of the lock object, while some thread does own the workspace |
| `WorkspaceLock.GuardNeverBlocks` | backend/lexmind/workspace/workspace_lock.py:44-75 | a thread waiting for a workspace lock does not own the guard, and the owner of the guard is at most two of its own steps from giving it back |
| `WorkspaceLock.ReleaseIsSound` | backend/lexmind/workspace/workspace_lock.py:58-65 | a disciplined release finds the lock taken by the releasing thread and leaves nobody owning the workspace |
| `WorkspaceLock.LockObjectFixed` | backend/lexmind/workspace/workspace_lock.py:46-50 | between any two moments of a run the lock object of a workspace does not change |
| `WorkspaceLock.AnyThreadCanOwn` | backend/lexmind/workspace/workspace_lock.py:44-56 | for every creator, thread and workspace there is a reachable idle state in which that thread alone owns the workspace and the creator is reported |
| `WorkspaceLock.GuardComesFree` | backend/lexmind/workspace/workspace_lock.py:44-75 | from every reachable state at most two steps of the guard's owner free the guard, change no ownership and move nobody else |
| `WorkspaceLock.ForeignReleaseBreaksExclusion` | backend/lexmind/workspace/workspace_lock.py:58-65 | from every reachable state in which another thread owns the workspace, once the guard is given back, one undisciplined release and one acquire by an idle thread make two threads own it |
| `OcrCache.RunWellFormed` | backend/lexmind/ocr/cache/cache_backend.py:61-97 | after every run of calls the digests are unique and there are at most `max_entries` entries |
| `OcrCache.RunMirrors` | backend/lexmind/ocr/cache/cache_backend.py:61-97 | after every run under a nondecreasing clock each stored result is the last one put under its digest since the last invalidate or clear; without a limit only expired ones are missing |
| `OcrCache.LookupIsLastPut` | backend/lexmind/ocr/cache/cache_types.py:86-94 | a lookup returns a result only if it was the last one put and is not expired now; without a limit it returns exactly that |
| `OcrCache.CountersCountGets` | backend/lexmind/ocr/cache/cache_backend.py:61-71 | hits are the lookups since the last clear that found a live entry, and hits plus misses are all lookups since then |
| `OcrCache.SurvivesPuts` | backend/lexmind/ocr/cache/cache_backend.py:73-92 | an entry put under an absent digest outlives the next `max_entries` - 1 puts whatever else is called in between that does not remove it itself |
| `OcrCache.FreshPutsEvict` | backend/lexmind/ocr/cache/cache_backend.py:73-77 | as many puts of fresh digests as the limit do evict it: the bound is exact |
| `OcrCache.ReplacingEvictsIff` | backend/lexmind/ocr/cache/cache_backend.py:73-77 | replacing an entry loses another one exactly when the cache is full and the entry is not the oldest; then the oldest is gone and the cache is one below its limit, otherwise its size stays |
| `OcrCache.PutIs` | backend/lexmind/ocr/cache/cache_backend.py:73-77 | the eviction loop drops nothing or exactly the oldest entry, and the assignment follows the ordered dictionary |
| `OcrCache.InMemoryOcrCacheBackend.Get` | backend/lexmind/ocr/cache/cache_backend.py:61-71 | returns the stored entry exactly when it is not older than the time to live; an expired one is dropped and the others keep their order; the call counts as a hit or a miss |
| `OcrCache.InMemoryOcrCacheBackend.Put` | backend/lexmind/ocr/cache/cache_backend.py:73-77 | a full cache first loses its oldest entry, even when that is the one put; a new digest comes last, a stored one keeps its place |
| `OcrCache.InMemoryOcrCacheBackend.Has` | backend/lexmind/ocr/cache/cache_backend.py:79-86 | answers whether an entry not older than the time to live is stored, drops an expired one and leaves the counters alone |
| `OcrCache.InMemoryOcrCacheBackend.Invalidate` | backend/lexmind/ocr/cache/cache_backend.py:88-92 | answers whether the digest was stored and removes exactly it |
| `OcrCache.InMemoryOcrCacheBackend.Clear` | backend/lexmind/ocr/cache/cache_backend.py:94-97 | back to the initial state, counters included |
| `OcrCache.InMemoryOcrCacheBackend.Stats` | backend/lexmind/ocr/cache/cache_backend.py:99-107 | the size is the number of entries not older than the time to live; nothing changes |
| `ConfigLoader.DeepMerge` | backend/lexmind/config/config_validator.py:13-21 | the recursive loop computes `Merged` on every pair of finite trees |
| `ConfigTree.LeafOfMerged` | backend/lexmind/config/config_validator.py:13-21 | a scalar of the override always appears; a scalar of the base survives exactly when the override binds neither its path to anything nor a proper prefix to a scalar; nothing else is there |
| `ConfigTree.BoundOfMerged` | backend/lexmind/config/config_validator.py:13-21 | mappings too, empty ones included: a path leads somewhere exactly when it does in the override, or in the base without a scalar of the override in its way |
| `ConfigTree.MergeIdentity` | backend/lexmind/config/config_validator.py:13-21 | the empty tree is a two-sided identity |
| `ConfigTree.MergeAbsorbs` | backend/lexmind/config/config_validator.py:13-21 | merging the same override twice changes nothing, on whole trees including empty mappings |
| `ConfigTree.MergeIdempotent` | backend/lexmind/config/config_validator.py:13-21 | merging a tree with itself changes nothing |
| `ConfigTree.CoveredIff` | backend/lexmind/config/config_validator.py:13-21 | an override swallows a base completely exactly when it binds every key of it, level by level |
| `ConfigTree.MergeAssociativeIff` | backend/lexmind/config/config_validator.py:13-21 | merging is associative exactly when no scalar stands between two mappings of which the later leaves part of the earlier standing |
| `ConfigTree.NotAssociative` | backend/lexmind/config/config_validator.py:13-21 | three concrete layers on which it is not |
| `ConfigLoader.Flatten` | backend/lexmind/config/config_validator.py:24-32 | every scalar path has an entry under its dotted name, and every entry is the scalar of a path with that name |
| `ConfigLoader.DottedInjective` | backend/lexmind/config/config_validator.py:27 | with non-empty dot-free keys two paths with the same dotted name are the same path |
| `ConfigLoader.FlatIsLeaves` | backend/lexmind/config/config_validator.py:24-32 | with such keys the flat map is exactly the tree's scalars under their dotted names |
| `ConfigLoader.FlattenOfMerged` | backend/lexmind/config/config_validator.py:13-32 | flattening a merged tree is the same override of the flat maps, name by name |
| `ConfigLoader.DotsCollide` | backend/lexmind/config/config_validator.py:27-31 | every key with a dot after its first character shares its flat name with a nested scalar, and the flat map keeps one of the two, for all parts and values |
| `ConfigLoader.KeyCollidesIff` | backend/lexmind/config/config_validator.py:27-31 | among non-empty keys, some tree has a scalar under the key that shares its flat name with another path if and only if the key has a dot with something before and after it |
| `ConfigLoader.EmptyKeyCollides` | backend/lexmind/config/config_validator.py:27-31 | every key shares its flat name with itself below an empty key |
| `ConfigLoader.DottedPrefixIff` | backend/lexmind/config/config_validator.py:27 | with good keys the dotted prefixes of a name are the names of the prefixes of its path |
| `ConfigLoader.ShadowsVisibleIff` | backend/lexmind/config/config_validator.py:13-32 | what an override shadows can be read off its flat map (name, dotted prefix or dotted extension present) exactly when it holds no empty mapping |
| `ConfigLoader.FlattenOfMergedFlat` | backend/lexmind/config/config_validator.py:13-32 | for such overrides flattening a merged tree is a law on the flat maps alone |
| `ConfigLoader.CheckDeprecated` | backend/lexmind/config/config_validator.py:35-40 | raises exactly when a scalar has a deprecated dotted name, and names the first such name of the list |
| `ConfigLoader.MergeSources` | backend/lexmind/config/config_loader.py:90-98 | a scalar is in the result exactly when some source sets it and no source that overrides that one touches its path; a source overrides those of earlier types in the list default, environment, plugin, workspace, runtime, and earlier ones of its own type |
| `ConfigLoader.MergedByPrecedence` | backend/lexmind/config/config_types.py:36-42 | the same about the value computed, by source types and places in the given list alone |
| `ConfigLoader.OrderedAscends` | backend/lexmind/config/config_types.py:36-42 | that order has nondecreasing priority and exactly the given sources |
| `ConfigLoader.MergeAllDecided` | backend/lexmind/config/config_loader.py:90-98 | a path has a scalar in the merged configuration exactly when some source sets it and no later one binds the path or shadows it with a scalar |
| `ConfigLoader.HigherPrecedenceWins` | backend/lexmind/config/config_loader.py:90-98 | a scalar survives every source of lower precedence, and every other source that does not touch its path |
| `PollingBackend.TakeSnapshot` | backend/lexmind/watcher/storage_watch_backend.py:112-134 | the tree walk terminates and returns exactly the reachable files below the root with their sizes, or only the direct children when not recursive; directories that cannot be listed contribute nothing |
| `PollingBackend.ScanListing` | backend/lexmind/watcher/storage_watch_backend.py:125-133 | one listing adds its files to the result and, when recursive, its directories to the stack |
| `PollingBackend.Compare` | backend/lexmind/watcher/storage_watch_backend.py:71-109 | at most one event per file, each true of the two snapshots, deletions last, and replaying them over the first gives the second |
| `PollingBackend.ReplayPolls` | backend/lexmind/watcher/storage_watch_backend.py:61-110 | the events of any number of polls replayed over the first snapshot give the last one |
| `PollingBackend.StoragePollingBackend.Watch` | backend/lexmind/watcher/storage_watch_backend.py:41-49 | stores the current snapshot as the new starting point of that watch |
| `PollingBackend.StoragePollingBackend.Unwatch` | backend/lexmind/watcher/storage_watch_backend.py:51-55 | forgets exactly that watch |
| `PollingBackend.StoragePollingBackend.Poll` | backend/lexmind/watcher/storage_watch_backend.py:61-110 | an unknown watch does nothing; otherwise the callback receives exactly the difference to the stored snapshot, which is replaced, and what it ever received still replays to the stored snapshot |
| `FileWatcher.PutReplaces` | backend/lexmind/watcher/file_watcher.py:136 | buffering an event replaces the pending one of its file and no other |
| `FileWatcher.PutKeepsPlace` | backend/lexmind/watcher/file_watcher.py:136 | a file that is buffered already keeps its place, a new one comes last |
| `FileWatcher.AcceptKeeps` | backend/lexmind/watcher/file_watcher.py:128-137 | accepting an event keeps the account of dispatched, overwritten and pending events |
| `FileWatcher.SendKeeps` | backend/lexmind/watcher/file_watcher.py:163-165 | dispatching a due event keeps it too |
| `FileWatcher.DueSelects` | backend/lexmind/watcher/file_watcher.py:158-162 | exactly the events whose window has elapsed are due, or all when forced |
| `FileWatcher.DueInOrder` | backend/lexmind/watcher/file_watcher.py:158-165 | the due events come out in the order of the buffer, and without a flush exactly those whose watch's debounce time has passed |
| `FileWatcher.Accounted` | backend/lexmind/watcher/file_watcher.py:128-165 | in every reachable state accepted = dispatched + overwritten by a later one of the same file + pending, as numbers |
| `FileWatcher.AccountedPerFile` | backend/lexmind/watcher/file_watcher.py:128-165 | the same for every file by itself, with at most one pending event |
| `FileWatcher.DispatchedInOrder` | backend/lexmind/watcher/file_watcher.py:128-189 | the dispatched events of a file are accepted events of that file, field by field, in the order of acceptance, none twice |
| `FileWatcher.QuietWindow` | backend/lexmind/watcher/file_watcher.py:150-173 | an event dispatched without a flush had no newer accepted event for its file during the debounce window configured at its dispatch |
| `FileWatcher.FlushedIsCurrent` | backend/lexmind/watcher/file_watcher.py:120-122 | once nothing is pending, the last dispatched event of every file is its last accepted one |
| `FileWatcher.FileWatcherService.Register` | backend/lexmind/watcher/file_watcher.py:92-94 | replaces the configuration and keeps every invariant, pending events included |
| `FileWatcher.FileWatcherService.Start` | backend/lexmind/watcher/file_watcher.py:96-104 | an unknown watch is refused; otherwise the backend starts watching its configuration from a clean snapshot and other watches keep theirs |
| `FileWatcher.FileWatcherService.OnBackendEvent` | backend/lexmind/watcher/file_watcher.py:128-137 | events of unknown or disabled watches and of unwanted file types change nothing; an accepted one replaces what is pending for its file; afterwards nothing pending is due, and everything delivered was |
| `FileWatcher.FileWatcherService.Drain` | backend/lexmind/watcher/file_watcher.py:150-165 | dispatches exactly the due events in buffer order and keeps the others |
| `FileWatcher.FileWatcherService.Flush` | backend/lexmind/watcher/file_watcher.py:120-122 | delivers one event for each pending one, in buffer order, with its fields and the workspace of its watch |
| `FileWatcher.FileWatcherService.Stop` | backend/lexmind/watcher/file_watcher.py:106-110 | the backend and the service forget the watch, and everything pending is delivered, in buffer order |
| `WatchedFiles.UriInjective` | backend/lexmind/watcher/storage_watch_backend.py:125-126 | with non-empty names without slashes, different files below a root have different URIs |
| `WatchedFiles.UriOfChild` | backend/lexmind/watcher/storage_watch_backend.py:125-126 | the URI of a child is that of its parent, a slash and the name; slashes at the end of the root do not count |
| `WatchedFiles.FlushedReplaysAll` | backend/lexmind/watcher/file_watcher.py:120-165 | once nothing is pending, replaying the dispatched events leaves every file as replaying all accepted ones, whatever was overwritten in between |
| `WatchedFiles.FilteredReplay` | backend/lexmind/watcher/file_watcher.py:130-134 | the file-type filter leaves the files that pass as they would be and the others as they were |
| `WatchedFiles.NamedReplay` | backend/lexmind/watcher/storage_watch_backend.py:61-110 | replaying a backend's events by path and by URI agree |
| `WatchedFiles.DispatchedGivesStored` | backend/lexmind/watcher/file_watcher.py:120-165 | for one watch feeding the service, after a flush, the dispatched events replayed over the snapshot taken at the start give the stored snapshot on every file the filter lets through, and change no other |
| `WatchedFiles.UnfilteredGivesStored` | backend/lexmind/watcher/file_watcher.py:120-165 | without a filter they give exactly the stored snapshot |
| `WatchedFiles.Begin` | backend/lexmind/watcher/file_watcher.py:92-104 | registering and starting a watch on a service that has accepted nothing establishes what the next two rows keep |
| `WatchedFiles.PollInto` | backend/lexmind/watcher/storage_watch_backend.py:61-110 | a poll whose events call the service one by one, with any clock, keeps the service in step with the stored snapshot |
| `WatchedFiles.Settle` | backend/lexmind/watcher/file_watcher.py:120-122 | a flush after any such polls: the dispatched events give the stored snapshot, file by file |
| `Migrations.PendingIsRest` | backend/lexmind/metadata/migrations.py:120-123 | from a prefix, the pending migrations are the rest of the registration list |
| `Migrations.UpStaysOnPrefix` | backend/lexmind/metadata/migrations.py:125-146 | `migrate_up` from a prefix reaches the whole list and returns exactly the new versions, or stops at the first migration that raises and names it, with table and schema again those of a prefix |
| `Migrations.DownStaysOnPrefix` | backend/lexmind/metadata/migrations.py:148-180 | `migrate_down` from a prefix removes everything down to and including the target and returns those versions newest first, or stops at the first one without rollback or that raises, again on a prefix |
| `Migrations.RunOnPrefix` | backend/lexmind/metadata/migrations.py:116-180 | after every sequence of `add`, `migrate_up` and `migrate_down`, failures included, the applied versions are a prefix of the list and the schema is the fold of `up` over it |
| `Migrations.DownThenUp` | backend/lexmind/metadata/migrations.py:125-180 | with everything applied, a successful run down to any version followed by a run up restores table and schema |
| `Migrations.RepeatBreaksPrefix` | backend/lexmind/metadata/migrations.py:116-180 | for every version list with a repetition: registering it up to the first repetition, going up, going down to the repeated version and registering the rest leaves a database that no prefix explains |
| `Migrations.PrefixIffDistinct` | backend/lexmind/metadata/migrations.py:116-180 | every run over a version list stays on a prefix, for all migrations undone by their rollbacks, if and only if the versions are distinct |
| `Migrations.PendingInOrder` | backend/lexmind/metadata/migrations.py:120-123 | the pending migrations are exactly those not applied, in the order of the list |
| `Migrations.UpMeans` | backend/lexmind/metadata/migrations.py:125-146 | on every list, repeated versions included: the versions before the stop are recorded in order; the run stops at the end, at a migration that raises with the schema untouched by it, or at a version already recorded, after its `up` has changed the schema |
| `Migrations.DownMeans` | backend/lexmind/metadata/migrations.py:148-180 | on every list: the listed migrations from the end down to the stop are rolled back; the stop is the target, the start of the list, or just above one without rollback or whose rollback raises, which is named |
| `Migrations.MigrationRunner.AddMigration` | backend/lexmind/metadata/migrations.py:116-118 | appends to the registration list, whatever its version, and touches neither table nor schema |
| `Migrations.MigrationRunner.MigrateUp` | backend/lexmind/metadata/migrations.py:125-146 | the loop does what the two rows on running up say, on every input, and leaves the list alone |
| `Migrations.MigrationRunner.MigrateDown` | backend/lexmind/metadata/migrations.py:148-180 | a version that is not applied, and no other, is refused without any change; otherwise the loop does what the two rows on running down say |
| `Scheduler.LifeOfAJob` | backend/lexmind/scheduler/job.py:21-34 | the table in plain terms: only failed jobs become pending, only pending ones running, only running ones completed or failed, only pending and running ones cancelled, and nothing leaves completed or cancelled |
| `Scheduler.StatusMovesAlongTable` | backend/lexmind/scheduler/job.py:21-34 | between any two moments the persisted status of a job moved along a path of the transition table |
| `Scheduler.TerminalForever` | backend/lexmind/scheduler/job.py:27-29 | completed and cancelled jobs never change again |
| `Scheduler.RetriesNotCounted` | backend/lexmind/scheduler/job.py:63-103 | after any number n >= 1 of failed runs a job can be retried if and only if `max_retries` > 1 |
| `Scheduler.Job.TransitionTo` | backend/lexmind/scheduler/job.py:63-76 | moves exactly along the table; attempts grow at the first start only |
| `Scheduler.Job.Retry` | backend/lexmind/scheduler/job.py:94-103 | resets exactly the retryable jobs |
| `Scheduler.LedgerWrite` | backend/lexmind/scheduler/job_executor.py:133-140 | a write that follows the table keeps the record of all writes lawful |
| `Scheduler.JobRepository.FirstPending` | backend/lexmind/scheduler/job_queue.py:55-63 | some pending job of highest priority, or nothing exactly when none is pending |
| `Scheduler.JobExecutor.Execute` | backend/lexmind/scheduler/job_executor.py:64-122 | persists the job as running; a handler that returns completes it with that result, one that raises fails it with that message, and nothing else changes but the count of first starts; without a handler, or when it may not start, nothing changes |
| `Scheduler.JobScheduler.Submit` | backend/lexmind/scheduler/job_scheduler.py:50-89 | creates one pending job with the given fields, unstarted; a job without a workspace is refused |
| `Scheduler.JobScheduler.ProcessNext` | backend/lexmind/scheduler/job_scheduler.py:91-99 | runs a pending job of highest priority and changes no other; a job without a handler stays where it is |
| `Scheduler.ProgressStep` | backend/lexmind/scheduler/job_scheduler.py:101-111 | running the first pending job extends the account of a `process_all` run by exactly that job |
| `Scheduler.JobScheduler.ProcessAll` | backend/lexmind/scheduler/job_scheduler.py:101-111 | terminates; runs each pending job exactly once in nonincreasing priority and leaves none pending, if and only if every pending type has a handler; otherwise stops at a first pending job that has none; a job that ran is completed exactly when its handler returned, and no other job changes |
| `Scheduler.JobScheduler.RetryJob` | backend/lexmind/scheduler/job_scheduler.py:113-137 | exactly the failed jobs with attempts left become pending again |
| `Scheduler.JobScheduler.CancelJob` | backend/lexmind/scheduler/job_scheduler.py:139-169 | exactly the pending and running jobs are cancelled |
| `Layout.ContainsIff` | backend/lexmind/layout/layout_analysis.py:155-162 | a box contains one of nonnegative size exactly when all points of that one lie in it |
| `Layout.MergeOverlapping` | backend/lexmind/layout/layout_analysis.py:70-81 | the loop computes `Merge` on every list |
| `Layout.MergeSound` | backend/lexmind/layout/layout_analysis.py:70-81 | nothing is invented; every dropped region lies inside a kept one of at least its confidence; no kept region lies inside a kept one of strictly higher confidence; the result is sorted by order |
| `Layout.MergeSoundByPoints` | backend/lexmind/layout/layout_analysis.py:70-81 | the same by points: all points of a dropped region lie in one kept region of at least its confidence; a kept region has a point outside every kept one of higher confidence |
| `LayoutTies.OrderIrrelevant` | backend/lexmind/layout/layout_analysis.py:72-81 | with distinct confidences the result does not depend on the order of the input |
| `LayoutTies.MergeAgain` | backend/lexmind/layout/layout_analysis.py:70-81 | with distinct confidences merging again changes nothing |
| `Layout.MergeAgainIff` | backend/lexmind/layout/layout_analysis.py:70-81 | on every input, merging again changes nothing exactly when no kept region contains an equally confident one after it |
| `LayoutTies.OrderIrrelevantIff` | backend/lexmind/layout/layout_analysis.py:70-81 | for every list: all its arrangements give the same result if and only if different regions of equal confidence that no more confident region contains neither contain one another nor share a reading order |
| `LayoutTies.MergeAgainAlwaysIff` | backend/lexmind/layout/layout_analysis.py:70-81 | for every list: merging again changes nothing, in any arrangement, if and only if of two such regions none that properly contains the other is read before it |
| `LayoutTies.HeadDecides` | backend/lexmind/layout/layout_analysis.py:74-79 | of two such regions the one that comes first is kept, and the second is kept exactly when the first does not contain it |
| `Layout.SortStable` | backend/lexmind/layout/layout_analysis.py:72 | sorting keeps elements with equal keys in their order |
| `Layout.SortedUnique` | backend/lexmind/layout/layout_analysis.py:80 | a stably sorted list is determined by its elements of each key |
| `IdCodec.RoundTripIff` | backend/lexmind/metadata/repositories.py:27-36 | parsing a joined list gives it back exactly when all its ids are non-empty, comma-free and trimmed |
| `IdCodec.ParseStable` | backend/lexmind/metadata/repositories.py:27-36 | for every string, malformed ones included, parse after join after parse equals parse |
| `IdCodec.CanonicalIff` | backend/lexmind/metadata/repositories.py:27-36 | joining what was parsed gives the string back exactly when it is empty or all its parts are storable ids |
| `IdCodec.PaddedIds` | backend/lexmind/metadata/repositories.py:31-36 | white space around ids and empty entries are ignored when a stored string is read, and nothing else is |
| `IdCodec.SplitOfJoin` | backend/lexmind/metadata/repositories.py:31-36 | splitting inverts joining on comma-free ids |
| `IdCodec.JoinOfSplit` | backend/lexmind/metadata/repositories.py:31-36 | joining inverts splitting on every string |

## Left out

- `ArtifactDependency.DependencyGraph.Remove`: does not model the `_metadata` dictionary, which no other operation reads.
- `ArtifactLineage.LineageTracker.FullChain`: promises no order when several roots lie above the artifact, because the code concatenates one suffix per root and keeps none; it may also list ids that are no ancestors.
- `PipelineExecution.PipelineExecutor.Execute`: equates a run with `RunOnce` only when every stage is harmless (see `PipelineModel.HarmlessExact`); otherwise only its stage-by-stage account holds. `validate` depends on a stage's `enabled` flag alone, and the error and skip texts are not modelled.
- `PipelineExecution.PipelineExecutor.RunStage`: the stage metrics are a list of records keyed by stage id, so that two holders of one metrics object are not modelled.
- Checkpoint stores other than the in-memory one, which are only a protocol in the source.
- `ConfigLoader.MergeSources`: Python's stable sort is modelled by collecting the sources of each of the five priorities in turn.
- `PollingBackend.TakeSnapshot`: paths are lists of names; `WatchedFiles.UriOf` builds the URIs from them, for names without slashes. The tree does not change during one walk, and a failing `stat` is not modelled.
- `FileWatcher.FileWatcherService.OnBackendEvent`: the lower-cased file extension is part of the event; computing it from the URI and normalising the configured patterns are not modelled.
- `FileWatcher.FileWatcherService.Start`: the backend is the polling one; the in-memory backend, which only forwards injected events, is not modelled.
- `WatchedFiles.DispatchedGivesStored`: one watch feeds the service; files that two watches name alike are not combined.
- `FileWatcher.QuietWindow`: the window is the one configured when the event is dispatched, as in the code.
- `Migrations.RunOnPrefix`: the version table starts empty, versions are distinct (see `Migrations.PrefixIffDistinct`), every rollback undoes its migration and a callable that raises leaves the schema as it was; SQL is not modelled.
- `Scheduler.JobScheduler.Submit`: the new id is unused, as a fresh UUID is; the timestamps of a job and the lifecycle events are not modelled.
- `Scheduler.JobExecutor.Execute`: the handler does not touch the repository or the job, so a cancellation that races a running handler is not modelled.
- `WorkspaceLock.MutualExclusion`: assumes that only holders call `release`. Without that, a release of a lock that nobody has taken raises in the code; in the model it ends the call and changes nothing else.
- `Layout.MergeSound`: coordinates are exact reals; floating-point rounding of box edges is not modelled, nor is the analyzer lookup around the merge.
- `roots()` and `leaves()` of the dependency graph after `remove`: they look at keys only and can omit nodes, so they promise nothing.
- `pipeline_stage` of the lineage tracker, plugin version ranges, plugin loading: easy members.
- Secret scanning, environment overrides, unknown-section checks and YAML loading of the configuration.
- Hashing and validation of OCR cache keys, hit rates and average values: not decided by the code modelled here.
- The task executor, whose retry loop has the shape of the pipeline's, and the workspace manager, whose registry and loader are protocols only.
- The event bus, logging, wall-clock durations and the SQL repositories other than as maps from id to record.
