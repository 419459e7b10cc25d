# Kelemetry, verified

Models of the parts of Kelemetry that hold real invariants, and proofs about them. `dafny verify dfyconfig.toml` checks everything.

| files | what they model |
|---|---|
| `Semaphore`, `Counting` | the semaphore that tasks run under: workers, slots, publishes, errors, as a step system over program counters |
| `Forest`, `TreeModel`, `Deletion`, `Traversal`, `Visitors`, `Collapsing`, `SpanTree` | the span tree, its traversal that visitors edit as it goes, and the rewriting visitors |
| `MapOrder`, `Wrappers` | any order of a map; values that may be missing |
| `Requirements`, `Building`, `Trimming`, `Ordering`, `Manager` | the component manager: building, disabling, ordering |
| `Links`, `Components`, `Selectors`, `Following`, `Assembly`, `GoStrings` | merging traces: canonical links, components, roots, link selectors, following links within a budget, assembling one tree |
| `Reservations`, `LocalCache`, `EtcdCache`, `Int64Bytes`, `Windows`, `GoIntegers` | the span cache protocol over both backends, with the aggregator as the client |
| `Deque`, `UnboundedQueue`, `TtlCache` | the ring buffer, the unbounded queue on it, and the write-once cache |
| `Diff`, `DiffReport` | the structural differ of JSON values, and what it reports |
| `KelemetrixConfig`, `Kelemetrix` | metric configurations by name, and their compiled form by position |
| `ConfigClosure` | the closure of display modes under modifiers |
| `SwapMap` | the informer swap map and the store that turns swaps into deltas |

How things are rendered:

- A panic of the source is a precondition of a method where only a caller can avoid it; where the source itself must avoid it, the proof shows that it does.
- Iterating over a Go map is choosing elements in any order (`MapOrder.Pick`), so every result holds for all orders.
- Concurrency is interleaving: one step per critical section, transaction or channel operation, over whole runs.
- Clocks, random uids, storage answers and the order in which listings are published are parameters. Uids and virtual span ids are taken not to repeat, and clocks not to run backwards.
- The model keeps object state in classes where the source does (`SpanTree`, `Manager`, `Deque`, `TtlOnce`, `SwapMap`, `Pool`, `DiffList`, `FileProvider`, `Consumer`); a method is proved against a function or relation on the value of that state.

Where the code and its comments part, the code is followed:

- `Delete` (tree.go:283-288) is said to be allowed on leaving a span; with children left it panics, as they have exited.
- `Move` of a span to its own parent takes it out of the children it has just been put into (tree.go:266-273).
- A peer met again in `dfsTaint` (merge.go:519) is said to be unreachable; every object of a search but the first meets the one it was reached from.
- Components join links of both roles, but only child links are merged (merge.go:575-600), so a member can be lost.
- A link is charged to the budget before the selector is asked (merge.go:103-113), and an added map key is reported twice (cmp.go:122-129).
- `Replace` of the delta store does not ask the object filter that `set` asks (prepush_undelta_store.go:76-124); a refused object may get in that way and cannot be deleted.
- Collapsing is said to turn child spans into logs (collapse_nesting.go:39); what is below them is deleted without a log.

## Model

| member | source | states |
|---|---|---|
| Semaphore.RunsKeepInv | pkg/util/semaphore/semaphore.go:75-170 | In every run, with tasks and publishes scheduling more: the wait group counts the live workers and the publishes offered or running, the slot channel holds one item per slot holder, and what is logged, sent and stored as an error agrees with what each worker did. |
| Semaphore.NilMeansAllDone | pkg/util/semaphore/semaphore.go:75-170 | When Run has returned nil, every worker ever scheduled has ended and its function was called, exactly the non-nil publishes have run, each once, each returning nil. |
| Semaphore.NilIsFinal | pkg/util/semaphore/semaphore.go:134-170 | After that nothing can happen any more but a late cancellation: no work is left behind. |
| Semaphore.ErrorMeans | pkg/util/semaphore/semaphore.go:117-170 | In every state of every run: a task error that Run has returned is that of a task whose function failed, a publish error that of a publish that returned one, and the cancellation error means that the context was done; the same of an error about to be returned or waiting in the error channel. |
| Semaphore.FirstFailureReturned | pkg/util/semaphore/semaphore.go:99-166 | The task error that Run returns is that of the first task that failed in the run. |
| Semaphore.NothingStartsAfterError | pkg/util/semaphore/semaphore.go:83-118 | Once Run has returned, with an error or without, no scheduled function is started any more. |
| Semaphore.CancelledRun | pkg/util/semaphore/semaphore.go:134-170 | A concrete run that a cancellation ends, with the cancellation error. |
| Semaphore.UnboundedNeverWaits | pkg/util/semaphore/semaphore.go:46-90 | With a negative limit nobody ever waits for a slot or holds one. |
| Semaphore.NilHidesFailureIff | pkg/util/semaphore/semaphore.go:152-164 | A nil result means that no task failed exactly when the error channel is empty: the select may take the done branch while an error is waiting. |
| Semaphore.HiddenFailureRun | pkg/util/semaphore/semaphore.go:110-164 | A concrete run in which the only task fails and Run returns nil. |
| Semaphore.SlotsBounded | pkg/util/semaphore/semaphore.go:83-131 | In every reachable state at most `limit` workers hold a slot, and every worker that runs its function holds one. |
| Semaphore.Progress | pkg/util/semaphore/semaphore.go:83-170 | With a limit other than zero, while work is outstanding and no task or publish is running, some step of the semaphore itself is enabled, before and after an error or cancellation. |
| Semaphore.StepLowersRank | pkg/util/semaphore/semaphore.go:75-170 | Every step but scheduling lowers a measure of what is left to do, by which no run spins. |
| Semaphore.RunsEnd | pkg/util/semaphore/semaphore.go:75-170 | A run of n schedules has at most 10n+8 steps; where it stops with nobody running, Run has returned and all workers have ended. |
| Semaphore.NeverStuckIff | pkg/util/semaphore/semaphore.go:59-131 | Runs never get stuck exactly when the limit is not zero. |
| Semaphore.ZeroRun | pkg/util/semaphore/semaphore.go:59-131 | With limit zero one scheduled task waits for ever: a concrete stuck run. |
| TreeModel.BuiltWellFormedIff | pkg/frontend/tf/tree/tree.go:43-70 | Spans with distinct ids build a well-formed tree exactly when one alone has no parent, all parents are among them, and following parents never comes back. |
| SpanTrees.SpanTree.New | pkg/frontend/tf/tree/tree.go:43-70 | NewSpanTree builds that tree. |
| TreeModel.AddWellFormedIff | pkg/frontend/tf/tree/tree.go:225-248 | Adding keeps a tree well formed exactly when the parent is in it and the id is new, or the span is re-added in place. |
| SpanTrees.SpanTree.Add | pkg/frontend/tf/tree/tree.go:225-248 | The whole effect of Add on the five fields, the pending list of an entered parent included. |
| TreeModel.MoveWellFormedIff | pkg/frontend/tf/tree/tree.go:254-281 | Moving keeps a tree well formed exactly when the new parent is in the tree, not below the moved span, and not its parent already: moving a span to its own parent loses it from the children. |
| SpanTrees.SpanTree.Move | pkg/frontend/tf/tree/tree.go:254-281 | The whole effect of Move on the five fields. |
| SpanTrees.SpanTree.Delete | pkg/frontend/tf/tree/tree.go:283-316 | Delete removes exactly the span and its descendants, and nothing else changes; children are taken in any order. |
| TreeModel.DeleteWellFormed | pkg/frontend/tf/tree/tree.go:283-316 | Deleting a span other than the root leaves a well-formed tree. |
| SpanTrees.DeletableOnExitIff | pkg/frontend/tf/tree/tree.go:283-316 | On leaving a span, Delete does not panic exactly when it is not the root and has no child left; the comment in the source allows more. |
| SpanTrees.SpanTree.SetRoot | pkg/frontend/tf/tree/tree.go:114-144 | SetRoot fails exactly on an unknown span, changing nothing; otherwise it keeps exactly the descendants of the new root. |
| TreeModel.RerootWellFormed | pkg/frontend/tf/tree/tree.go:114-144 | What SetRoot leaves is a well-formed tree. |
| SpanTrees.SpanTree.AddTree | pkg/frontend/tf/tree/tree.go:318-336 | AddTree hangs the whole of the other tree below the given span and leaves the other tree alone. |
| TreeModel.GraftWellFormed | pkg/frontend/tf/tree/tree.go:318-336 | With no shared ids the result is well formed. |
| TreeModel.Reachable | pkg/frontend/tf/tree/tree.go:43-70 | In a well-formed tree every span is below the root. |
| SpanTrees.SpanTree.VisitNode | pkg/frontend/tf/tree/tree.go:160-220 | The traversal of one span, edited by its visitor as it goes: terminates, never meets a span that is gone or its own child, and leaves the stack, the exited marks and the pending lists as the engine needs them. |
| SpanTrees.SpanTree.VisitEach | pkg/frontend/tf/tree/tree.go:187-205 | Going through one list of pending children: each is still in the tree when its turn comes, and none is visited twice. |
| SpanTrees.SpanTree.Visit | pkg/frontend/tf/tree/tree.go:156-158 | A whole visit ends with the engine idle and the visitor through with every span in reach. |
| SpanTrees.VisitMeans | pkg/frontend/tf/tree/tree.go:156-220 | What a visit of a well-formed tree means for each visitor; the tree stays well formed. |
| SpanTrees.VisitLeaves | pkg/frontend/tf/tree/tree.go:156-220 | Which spans each visit leaves, by the tags they carry: extraction takes exactly the spans other than the root with a pseudo type that matches, pruning leaves exactly the root and what has a span without pseudo type in it, collapsing takes exactly what is below a collapsed span, the others take nothing; without a pseudo type a span goes only by collapsing. |
| Traversal.AddDuringVisit | pkg/frontend/tf/tree/tree.go:225-248 | A span added below one that is being visited goes on its list, so that it is visited too, and the traversal invariants hold. |
| Traversal.PushOk | pkg/frontend/tf/tree/tree.go:172-183 | Entering a span keeps the invariants of stack, exited marks and pending lists. |
| Traversal.ExitOk | pkg/frontend/tf/tree/tree.go:207-219 | Leaving a span keeps them. |
| Visitors.ExtractDone | pkg/frontend/tf/defaults/step/extract_nesting.go:43-66 | After the extract-nesting visit exactly the matching spans other than the root are gone, and every other span is unchanged but for its parent, its nearest surviving original ancestor. |
| Visitors.ExtractedIff | pkg/frontend/tf/defaults/step/extract_nesting.go:43-66 | A span is gone exactly when it is not the root and its pseudo-type tag has a value that matches; a span without the tag stays. |
| Visitors.ExtractedParent | pkg/frontend/tf/defaults/step/extract_nesting.go:43-66 | The new parent of a span that is left is above it, is left itself, and nothing between the two is left. |
| SpanTrees.SpanTree.Extract | pkg/frontend/tf/defaults/step/extract_nesting.go:49-63 | Enter on a matched span, in the middle of a traversal: children go up one level, the span goes, and the traversal invariants hold. |
| Collapsing.CollapseDone | pkg/frontend/tf/defaults/step/collapse_nesting.go:107-195 | After the collapse-nesting visit exactly the spans below no collapsed span are left, unchanged but for one more log, at the start of the child, for every child collapsed into a pseudo span. |
| Collapsing.CollapsedIff | pkg/frontend/tf/defaults/step/collapse_nesting.go:107-195 | A span is gone exactly when it is, or is below, a child without pseudo type of a pseudo span, with a trace source that is to be collapsed; a span gets as many logs at a time as such children of it started then. |
| SpanTrees.SpanTree.CollapseChildren | pkg/frontend/tf/defaults/step/collapse_nesting.go:107-195 | Enter on a pseudo span, in the middle of a traversal, logs and deletes children with all below them and keeps the span: nothing collapsible is left in it, and the traversal may go on. |
| Traversal.FrameAfterEdit | pkg/frontend/tf/tree/tree.go:160-220 | A visit of a span after its Enter has edited below it, seen from before the edit: nothing else is disturbed, for any edit that keeps the invariants and touches no pending list. |
| Visitors.PruneDone | pkg/frontend/tf/defaults/step/prune_childless.go:43-49 | After the prune-childless visit the spans are exactly the root, the non-pseudo spans, and the pseudo spans above a non-pseudo span, all unchanged. |
| Visitors.PrunedIff | pkg/frontend/tf/defaults/step/prune_childless.go:43-49 | A span is left exactly when it is the root or a span without pseudo type is below it or is itself. |
| SpanTrees.SpanTree.Compact | pkg/frontend/tf/defaults/step/compact_duration.go:45-79 | Exit gives a pseudo span the hull of its children and logs, the root five per cent more on both sides. |
| Visitors.CompactedHull | pkg/frontend/tf/defaults/step/compact_duration.go:45-79 | After the visit a pseudo span runs from the first start to the last end among its children and its logs of one second each, the root a twentieth more at both ends; spans without pseudo type keep their interval. |
| SpanTrees.TimeRange.Union | pkg/frontend/tf/defaults/step/compact_duration.go:86-96 | The range is the least start and the greatest end of all that was united. |
| Requirements.NeedsIff | pkg/manager/interface.go:503-534 | A component is referred to exactly when some request mentions it, through utils if need be. |
| Requirements.SoundIff | pkg/manager/interface.go:495-518 | A request can be met as far as utils go exactly when no util it leads to fails. |
| Requirements.OwedCountsListers | pkg/manager/interface.go:503-534 | The references made to a component are at least as many as the components that list it. |
| Managers.Manager.Resolve | pkg/manager/interface.go:463-545 | Resolving a request, recursively through utils and components: what is needed is built, every reference is counted, and failure means the factories cannot be built at all. |
| Managers.Manager.ResolveComponent | pkg/manager/interface.go:520-542 | A component is built at most once; a type met while it is being built is an error. |
| Managers.Manager.Build | pkg/manager/interface.go:547-568 | Build succeeds, in whatever order, exactly when nothing fails, every requested type is provided, no component needs itself, and list implementations are referred to at most once; then the counters hold every reference. |
| Trimming.EligibleMonotone | pkg/manager/interface.go:696-735 | What may be disabled may still be disabled when more is. |
| Trimming.MaximalRunsAgree | pkg/manager/interface.go:690-750 | Every maximal run of the disabling loop disables the same components: map order does not matter. |
| Managers.Manager.DisableAll | pkg/manager/interface.go:690-750 | The disabling loop ends after a maximal run; the counters are the references of the survivors and never wrap around. |
| Managers.Manager.DropImpls | pkg/manager/interface.go:670-688 | List implementations that are switched off leave their lists and lose that one reference. |
| Trimming.DroppedIsDisabled | pkg/manager/interface.go:670-750 | A list implementation that is switched off is disabled in the end. |
| Trimming.SurvivesIff | pkg/manager/interface.go:690-750 | Who survives a maximal run: a mux implementation exactly when it is the chosen one, its mux survives, and the enable flag of the mux is true, or absent while the mux is still referred to; a component with an enable flag, on no list, exactly when the flag is true; any other exactly when it is still referred to. |
| Trimming.ListImplSurvivesIff | pkg/manager/interface.go:670-750 | A list implementation survives exactly when its flag is not false and its list survives. |
| Trimming.SurvivorsComplete | pkg/manager/interface.go:752-775 | When validation passes, every dependency of a survivor that is not a mux implementation survives. |
| Trimming.ValidIffReferred | pkg/manager/interface.go:752-775 | Validation passes exactly when no disabled component that is not a mux implementation has references left. |
| Trimming.ValidIffComplete | pkg/manager/interface.go:752-775 | Where every dependent counts once, that is exactly when no survivor depends on a disabled component that is not a mux implementation. |
| Trimming.CountedTwiceFails | pkg/manager/interface.go:503-534 | Where one counts twice, validation can fail though nobody is left: a concrete graph. |
| Trimming.SurvivorNeeded | pkg/manager/interface.go:730-735 | A survivor without enable flag is a dependency of another survivor, if each of its users counted it once. |
| Trimming.KeptOnlyIfNeededIff | pkg/manager/interface.go:690-750 | For any acyclic dependencies and counters: a component without enable flag survives only when a survivor lists it, for all options, lists and maximal runs, exactly when its counter is the number of components that list it. |
| Trimming.CountedTwice | pkg/manager/interface.go:503-534 | Without that: a component asked for twice by a disabled user stays enabled though no survivor lists it. |
| Managers.Manager.InsertDeps | pkg/manager/interface.go:798-814 | The depth-first insertion: a component comes after its dependencies, and a reported path means there is a cycle. |
| Managers.Manager.OrderComponents | pkg/manager/interface.go:780-796 | Ordering panics exactly when the dependencies among the components have a cycle; otherwise every component appears once, after its dependencies. |
| Managers.Manager.TrimDisabled | pkg/manager/interface.go:669-778 | The whole of TrimDisabled: the unique survivors, failure exactly when validation fails, and then an order; a cycle is never reported. |
| Trimming.BuiltIsProper | pkg/manager/interface.go:547-688 | What a successful Build leaves meets what TrimDisabled needs. |
| Links.KeyLessIff | pkg/frontend/reader/merge/merge.go:404-426 | The first of group, resource, cluster, namespace and name in which two keys differ decides their order. |
| GoStrings.StringLessIff | pkg/frontend/reader/merge/merge.go:404-426 | Strings are in order by the first character in which they differ, or by length where one begins the other. |
| Links.KeyTotal | pkg/frontend/reader/merge/merge.go:404-426 | Two different keys are in order exactly one way round, and no key is before itself. |
| Links.KeyTransitive | pkg/frontend/reader/merge/merge.go:404-426 | The order of keys is transitive. |
| Links.CanonicalIff | pkg/frontend/reader/merge/merge.go:386-402 | A link and its reverse have one canonical form exactly when it joins two objects and has a known role, or neither. |
| Links.CanonicalParent | pkg/frontend/reader/merge/merge.go:378-402 | Between two objects the canonical form names the parent: the subject of a child link, else the target. |
| Links.CanonicalEnds | pkg/frontend/reader/merge/merge.go:386-402 | The canonical form joins the two objects of the link, the lesser key first, in the class of the link. |
| Components.CollectLinks | pkg/frontend/reader/merge/merge.go:197-206 | The stored edges are exactly the links of the objects, seen from both ends, each in canonical form. |
| Components.ParentEdgeMeans | pkg/frontend/reader/merge/merge.go:378-402 | A stored parent edge comes from a link that says so. |
| Components.DfsTaint | pkg/frontend/reader/merge/merge.go:508-526 | The search taints exactly what it takes out of the untainted keys, all joined to the seed, and leaves no untainted peer; the branch said to be unreachable is taken at least once for every object but the seed. |
| Components.FindConnectedComponents | pkg/frontend/reader/merge/merge.go:472-498 | Every object is in exactly one component, once, and two objects share it exactly when a path of links inside the object set joins them. |
| Components.DfsRoot | pkg/frontend/reader/merge/merge.go:449-466 | The detected root is an ancestor of the seed; without a cycle it has no parent among the members, with one it is its own ancestor. |
| Selectors.Admit | pkg/frontend/tf/config/link_selector.go:29-87 | Admit of constants, intersections, unions, siblings, patterns and distances, with their loops, computes the step function. |
| Selectors.AdmitsIffMeaning | pkg/frontend/tf/defaults/modifier/link_selector.go:143-200 | Admitting link by link is what the selector means for the whole path: intersection all, union some, siblings one direction, patterns every link, distance at most so many links in its direction. |
| Selectors.UnionPath | pkg/frontend/tf/config/link_selector.go:64-87 | A union admits a path exactly when one of its members does. |
| Selectors.IntersectPath | pkg/frontend/tf/config/link_selector.go:44-61 | An intersection admits a path exactly when all of its members do. |
| Selectors.PatternAdmitsIff | pkg/frontend/tf/defaults/modifier/link_selector.go:73-97 | A pattern admits exactly the links whose ends and class its filters accept, unless the direction of the link is excluded; what is left open is accepted. |
| Selectors.DistanceAdmitsIff | pkg/frontend/tf/defaults/modifier/link_selector.go:184-200 | A directed distance admits a path exactly when at most so many of its links go in that direction, up to a parent or down to a child. |
| Selectors.DistancePath | pkg/frontend/tf/defaults/modifier/link_selector.go:184-200 | A directed distance admits a path exactly when it has at most that many links in the direction. |
| Selectors.ModifyAdmitsIff | pkg/frontend/tf/defaults/modifier/link_selector.go:115-136 | A modified configuration follows a path exactly when the original one does or the modifier allows it. |
| Following.Pool.ScheduleFrom | pkg/frontend/reader/merge/merge.go:96-122 | The links of one object met, each looked at once and in turn: charged exactly when its key is unknown by then, and followed exactly when the charges to the budget before it are below the limit and the selector admits it; the budget left is the limit less its charges; what is kept are the links in their order but for those charged and not followed; no more listings lie ahead than before. |
| Following.Pool.Consider | pkg/frontend/reader/merge/merge.go:103-118 | A link to an unknown object is charged even when the selector denies it, and followed exactly when there was budget and the selector admits it. |
| Following.FollowLinks | pkg/frontend/reader/merge/merge.go:153-195 | For all answers of the storage and all orders of publishing: ends, lists each key at most once and no initial one, at most `limit` in all or per initial object. The objects met are exactly the initial ones and all those that listings were answered with. Every link of every object met is looked at once: its key is known by then, or it is charged, and a charged link is followed exactly when fewer than `limit` were charged to its budget before and the selector admits it; the keys listed are exactly those of the followed links. Every listed key has a path in which each step is a link of an object met, initial at first and then returned by the listing of the step before, with the selector that is left there. It fails exactly when a listing does; else every listing has been answered. |
| Following.ChargedOnce | pkg/frontend/reader/merge/merge.go:99-105 | No link of one object is charged twice. |
| Following.StepFollows | pkg/frontend/reader/merge/merge.go:107-110 | A link is asked about as a step up to its target exactly when its role is parent, otherwise as a step down to it, in its class. |
| Following.TrailWithinDistance | pkg/frontend/reader/merge/merge.go:96-195 | Every listed key was reached by links of objects met, each object initial or returned by the listing of the link before; under a distance upwards at most so many of these links are parent links, under one downwards at most so many are not. |
| Assembly.Assemble | pkg/frontend/reader/merge/merge.go:565-604 | The worklist ends with a well-formed tree that holds exactly the members reached from the root by child links, each once and unchanged but for the parent of its root, hung by a child link of its parent, and exactly one virtual span for each classed child link of a placed object, below the root of that object. |
| Assembly.VirtualFields | pkg/frontend/reader/merge/merge.go:575-628 | A virtual span, field by field: pseudo type linkClass, below the root of the object whose classed child link it stems from, with the start and duration of that root, and no logs. |
| Assembly.MergedFields | pkg/frontend/reader/merge/merge.go:575-604 | A span of a merged object, field by field: all as in its own tree, but that the root of the object hangs below the root of the object that calls it a child, or below the virtual span of that link. |
| Assembly.GraftApart | pkg/frontend/reader/merge/merge.go:594-598 | An object placed for the first time shares no span with the tree: no tree is added to itself or twice. |
| Assembly.PlaceLink | pkg/frontend/reader/merge/merge.go:575-600 | One child link: a virtual span that stems from it for a class, even if the object is repeated or missing, and the object below it if it is there and new. |
| Assembly.LostMember | pkg/frontend/reader/merge/merge.go:565-604 | A member that is joined to the root only by its own parent link is in the component but not in the merged tree. |
| Assembly.MergedIff | pkg/frontend/reader/merge/merge.go:449-604 | When every parent link between members has its child link at the other end and no two members are children of each other, exactly the members are merged that the root is an ancestor of. |
| Assembly.MergeLinkedTraces | pkg/frontend/reader/merge/merge.go:554-604 | Root detection and assembly together: the tree of everything below an ancestor of the first object that has no parent, or is its own ancestor. |
| Reservations.WonOnce | pkg/aggregator/aggregator.go:223-355 | In any history the guarantee allows, a reservation is won at most once. |
| Reservations.FetchesAgree | pkg/aggregator/aggregator.go:252-277 | Everything fetched after a reservation was won is the value it was won with. |
| Reservations.RunWinsOnce | pkg/aggregator/aggregator.go:223-355 | The events of every run are such a history, so in every run a reservation is won at most once and what is fetched of it later is what it was won with. |
| Reservations.OneCreatorPerLifetime | pkg/aggregator/aggregator.go:223-355 | In every run of concurrent callers at most one per lifetime of an entry finds its span new and publishes a link job, and all that are answered from that lifetime get the same span. |
| Reservations.NewExactlyByWinning | pkg/aggregator/aggregator.go:223-355 | A caller that is answered finds its span new exactly when it has just won its own reservation with it; otherwise the answer is what was fetched. |
| LocalCache.StepRefines | pkg/aggregator/spancache/local/local.go:98-220 | Each critical section of the local cache, with trimming and time passing between, is a step the guarantee allows. |
| LocalCache.WinsWhileLive | pkg/aggregator/spancache/local/local.go:192-220 | SetReserved succeeds only on an entry that is still in the map and has not expired, also when it was trimmed after being looked up. |
| LocalCache.LiveKeepsKey | pkg/aggregator/spancache/local/local.go:130-146 | While an entry has not expired, no reservation is made for its key. |
| LocalCache.ReserveSetFetch | pkg/aggregator/spancache/local/local.go:98-220 | An absent key is reserved. After any steps of any callers, with time and trimming, until the reservation expires: others are told to wait, and who has the uid sets it, unless somebody else did. After any further steps until the new expiry, all are answered with that value. |
| LocalCache.LocalRunGuaranteed | pkg/aggregator/spancache/local/local.go:98-220 | Every run of callers over the local cache is a run of the guarantee. |
| LocalCache.LocalWinsOnce | pkg/aggregator/spancache/local/local.go:98-220 | In every run over the local cache SetReserved succeeds at most once per reservation, and later fetches of it give that value. |
| EtcdCache.StepRefines | pkg/aggregator/spancache/etcd/etcd.go:102-244 | Each etcd transaction, with leases expiring at any time and uids taken from reservations, is a step the guarantee allows. |
| EtcdCache.OverwritesIff | pkg/aggregator/spancache/etcd/etcd.go:204-244 | The uid of a reservation never overwrites an entry that has been initialized; only the revision of its last put would, whatever its header says. |
| EtcdCache.ReserveSetFetch | pkg/aggregator/spancache/etcd/etcd.go:102-244 | Reserving an absent key, setting it with the uid answered, and fetching it gives the value; in between others are told to wait. |
| EtcdCache.StoredBytes | pkg/aggregator/spancache/etcd/etcd.go:102-217 | What is stored: a zero byte and the timestamp for a reservation, a one byte and the value once it is set; no other key is touched. |
| EtcdCache.SetRefusedIff | pkg/aggregator/spancache/etcd/etcd.go:204-244 | A set fails as invalid exactly on an absent key with a revision other than zero, as a mismatch exactly on another revision than the last put, and then changes nothing. |
| EtcdCache.EtcdRunGuaranteed | pkg/aggregator/spancache/etcd/etcd.go:102-244 | Every run of callers over etcd is a run of the guarantee. |
| EtcdCache.EtcdWinsOnce | pkg/aggregator/spancache/etcd/etcd.go:102-244 | In every run over etcd SetReserved succeeds at most once per reservation, and later fetches of it give that value. |
| EtcdCache.ParseInitialized | pkg/aggregator/spancache/etcd/etcd.go:165-212 | A value that was put by SetReserved is read back as it was. |
| Int64Bytes.EncodedBytes | pkg/aggregator/spancache/etcd/etcd.go:248-256 | The eight bytes, each counting 256 times the one before, make up the integer, or 2^64 more if it is negative. |
| Int64Bytes.DecodeEncode | pkg/aggregator/spancache/etcd/etcd.go:248-256 | Decoding an encoded 64-bit integer gives it back. |
| Int64Bytes.EncodeDecode | pkg/aggregator/spancache/etcd/etcd.go:248-256 | Encoding what eight bytes decode to gives the bytes back. |
| Windows.SameWindowIff | pkg/aggregator/aggregator.go:409-416 | Two events share a window exactly when their spans start in the same second. |
| Windows.WithinSpanIff | pkg/aggregator/aggregator.go:366-378 | An event lies within its span exactly when it is not before 1970 or falls on the start of a window: division truncates. |
| Deques.RingPush | pkg/util/channel/channel.go:164-193 | Writing behind the last item appends one item to the ring; if that closes it, the buffer holds exactly the items. |
| Deques.RingPop | pkg/util/channel/channel.go:214-229 | Advancing the start takes the front item off, across the wrap-around. |
| Deques.Deque.PushBack | pkg/util/channel/channel.go:157-193 | The contents grow by one at the back, also when the buffer doubles; the longest length is kept. |
| Deques.Deque.Grow | pkg/util/channel/channel.go:168-186 | Doubling keeps the contents and their order. |
| Deques.Deque.PopFront | pkg/util/channel/channel.go:207-229 | The front item is returned and removed; nothing exactly when the deque is empty. |
| Deques.Deque.GetAll | pkg/util/channel/channel.go:140-152 | The two slices together are the contents. |
| UnboundedQueues.RunKeepsOk | pkg/util/channel/channel.go:70-123 | In every interleaving, sent items are the delivered ones, the item in hand and the deque, in order, and a waiting receiver with items has a signal or a sender about to signal. |
| UnboundedQueues.DeliveredInOrder | pkg/util/channel/channel.go:81-123 | Delivered items are a prefix of the sent ones, also after closing. |
| UnboundedQueues.WorkDecreases | pkg/util/channel/channel.go:70-123 | Without new sends the queue comes to rest. |
| UnboundedQueues.AtRestAllDelivered | pkg/util/channel/channel.go:70-123 | At rest and not closed, everything sent has been delivered. |
| UnboundedQueues.SendNeverBlocks | pkg/util/channel/channel.go:70-79 | A send can always be made, and its signal given. |
| UnboundedQueues.OneSignalPerSend | pkg/util/channel/channel.go:70-123 | In every run every send gives one signal, and the receiver stops only after Close. |
| UnboundedQueues.CloseEnds | pkg/util/channel/channel.go:81-123 | After Close the receiver can stop wherever it would wait, and nothing is delivered after it has. |
| TtlCaches.SizeIsQueue | pkg/util/cache/ttl.go:55-79 | There are as many keys as cleanup entries. |
| TtlCaches.TtlOnce.Add | pkg/util/cache/ttl.go:55-64 | A present key is left alone; a new one gets a value and an entry at the back of the sorted queue. |
| TtlCaches.TtlOnce.DoCleanup | pkg/util/cache/ttl.go:103-118 | The clock is read once for each entry popped, which had expired, and once more for the first that had not; exactly the entries that had expired at the last reading are removed. |
| TtlCaches.ValueStays | pkg/util/cache/ttl.go:55-118 | In every history a stored value is neither replaced nor removed before its time to live has passed. |
| TtlCaches.AddedStays | pkg/util/cache/ttl.go:55-118 | So a value added under a new key is there in every history until its time to live after it was added. |
| Diffs.EmptyIffSame | pkg/diff/cmp/cmp.go:47-171 | No difference is reported exactly when the values agree, missing slice elements counting as null. |
| Diffs.SameIffNorm | pkg/diff/cmp/cmp.go:72-171 | That is: exactly when they are equal without the nulls at the end of their slices. |
| Diffs.ReplayGivesNew | pkg/diff/cmp/cmp.go:41-171 | Replaying the new values over the old value gives the new one, up to null being the same as absent. |
| DiffReports.ReportedTimes | pkg/diff/cmp/cmp.go:47-171 | A difference is in the report exactly when its path leads through objects and arrays on both sides to values that differ and are not both objects or both arrays, with these two as its old and new value, or to a key that one side lacks; it is there once, and twice for an added key. |
| DiffReports.ReportOrdered | pkg/diff/cmp/cmp.go:72-171 | The report goes through keys in string order and through indexes upwards. |
| Diffs.DiffList.Compare | pkg/diff/cmp/cmp.go:47-70 | The recursion with its growing list and path reports these differences, in the order of the keys. |
| Diffs.DiffList.CompareKey | pkg/diff/cmp/cmp.go:115-133 | Per key: removed once, added twice, else recursively. |
| Diffs.CompareValues | pkg/diff/cmp/cmp.go:41-45 | Compare as a whole, with both properties. |
| Kelemetrix.IndexTagProviders | pkg/kelemetrix/consumer/consumer.go:144-180 | Fails exactly when a tag does not exist; provider slices are disjoint, contiguous and cover all positions, and the index leads every required tag to its position. |
| Kelemetrix.ProvideValues | pkg/kelemetrix/consumer/consumer.go:437-442 | Every position gets the value that its tag has by name. |
| Kelemetrix.TestTag | pkg/kelemetrix/consumer/consumer.go:215-234 | The compiled filter decides as the configured one. |
| Kelemetrix.NewQuantityFilter | pkg/kelemetrix/consumer/consumer.go:268-297 | The three accept flags decide every quantity as the operator does; fails exactly on unknown operators. |
| Kelemetrix.IndexQuantifiers | pkg/kelemetrix/consumer/consumer.go:242-257 | Fails exactly when a quantifier does not exist; positions lead to the quantifier of the name. |
| Kelemetrix.Consumer.PrepareTagsQuantifiers | pkg/kelemetrix/consumer/consumer.go:299-372 | Preparation succeeds exactly when everything named exists, patterns compile and operators are known. |
| Kelemetrix.Handle | pkg/kelemetrix/consumer/consumer.go:392-417 | One handler emits exactly what its metric means by name. |
| Kelemetrix.Consumer.HandleMessage | pkg/kelemetrix/consumer/consumer.go:437-467 | The compiled handlers emit exactly the points that evaluating the configuration by name gives. |
| KelemetrixConfig.EmittedIff | pkg/kelemetrix/consumer/consumer.go:392-417 | A metric emits at most one point, and this one exactly when: it has the name and kind of the metric, the quantity is there, the tags are those the providers give, every tag filter has a choice that fits or, negated, one that does not, and every quantity is on its side of the threshold. |
| KelemetrixConfig.QuantityPassesIff | pkg/kelemetrix/consumer/consumer.go:268-297 | The four operators: above or below the threshold, and two that accept the threshold itself. |
| KelemetrixConfig.TagPassesIff | pkg/kelemetrix/consumer/consumer.go:215-234 | A tag filter passes when one of its strings or patterns fits, a negated one when one of them does not. |
| KelemetrixConfig.PointsInOrder | pkg/kelemetrix/consumer/consumer.go:437-467 | A message makes the points of all metrics in the order of the configuration. |
| KelemetrixConfig.AddKeepsProper | pkg/kelemetrix/registry.go:106-113 | Registering a provider keeps the name index right. |
| KelemetrixConfig.NegatedIsNoneOfIff | pkg/kelemetrix/consumer/consumer.go:215-234 | A negated filter, of patterns or not, means none-of for all values exactly when it has a choice and all its choices match the same values. |
| KelemetrixConfig.LiteralsMatchAlike | pkg/kelemetrix/consumer/consumer.go:215-234 | Without patterns that is: when all its choices are one and the same string. |
| ConfigClosure.FileProvider.Load | pkg/frontend/tf/config/file/file.go:179-224 | One configuration per base and per choice of modifiers with distinct classes, under the union of their bits, is what is registered exactly when choices with the same id are alike; each is registered once exactly when different choices have different ids, and then names lead to configurations of those names; for any input, names lead to registered configurations. |
| ConfigClosure.RegisteredIff | pkg/frontend/tf/config/file/file.go:179-224 | Where choices with the same id are alike, exactly the configurations are registered that have, field by field, the name and steps of a base, the bits of the base and of modifiers picked in the order of the list with no two of one class, and their display names and classes. |
| ConfigClosure.LookupByName | pkg/frontend/tf/config/file/file.go:226-232 | With distinct base and display names, looking up the name of a configuration finds its id. |
| ConfigClosure.NestedBitsCollide | pkg/frontend/tf/config/file/file.go:197-224 | Two modifiers of different classes, the bits of one among those of the other: whatever is registered, one of the configurations is missing. |
| ConfigClosure.RoundMeans | pkg/frontend/tf/config/file/file.go:197-224 | One round of the loop over the modifiers: what it registers is closed under one more modifier if choices stay alike, and new throughout exactly when ids stay different. |
| ConfigClosure.IndependentDistinct | pkg/frontend/tf/config/file/file.go:197-232 | Different choices have different ids when bitmasks are not zero and disjoint from one another and from distinct base ids. |
| ConfigClosure.IdsDistinct | pkg/frontend/tf/config/file/file.go:197-232 | The id tells the base and the modifiers. |
| ConfigClosure.ExtendedClosed | pkg/frontend/tf/config/file/file.go:197-224 | One round of the loop closes the configurations under one more modifier. |
| ConfigClosure.OrderDoesNotMatter | pkg/frontend/tf/config/file/file.go:169-224 | Whatever order the modifiers are processed in, the same ids are registered with the same names. |
| SwapMaps.SwapMap.SwapIf | pkg/util/informer/swap_map.go:39-88 | A swap changes the key as asked and answers what was there and what came, unless the condition refuses. |
| SwapMaps.SwapMap.Replace | pkg/util/informer/swap_map.go:90-113 | The map becomes the new values and every key, old or new, gets the result of its own swap. |
| SwapMaps.SwapFollowed | pkg/util/informer/prepush_undelta_store.go:57-91 | The callback of a swap is right for a listener that has followed so far, and brings it up to date. |
| SwapMaps.PrepushUndeltaStore.Set | pkg/util/informer/prepush_undelta_store.go:76-106 | Replaying all callbacks gives the contents, after every Add, Update and Delete. |
| SwapMaps.PrepushUndeltaStore.Replace | pkg/util/informer/prepush_undelta_store.go:108-124 | The same after a replacement, whatever order its results are reported in. |
| SwapMaps.AlwaysAcceptedIff | pkg/util/informer/prepush_undelta_store.go:76-124 | Throughout a history of calls the store holds only objects that the filter accepts exactly when, of every list put in place, the last object of each key is accepted. |
| SwapMaps.RefusedStays | pkg/util/informer/prepush_undelta_store.go:76-124 | A refused object that a list has put in place stays, whatever refused object is added, updated or deleted under its key. |

## Left out

- Semaphore.RunsKeepInv: Schedule is taken to be called only before Run, inside tasks and inside publishes, which is where the repository calls it.
- SpanTrees.SpanTree.AddTree: spans are values here, so the change of a root's parent that the two trees share by reference is not seen in the other tree; overlapping span ids, which the source marks as not working, are excluded.
- The loop of MergeTraces over the components: each component is merged on its own here.
- Assembly.MergeLinkedTraces: warnings on repeated objects, metadata, and the service names of virtual spans are not modelled; members are taken to have disjoint span ids.
- Following.FollowLinks: the budget is an unbounded integer, so its wrap-around after 2^32 charges is not modelled, and what AddTraces merges into objects is a parameter.
- Managers.Manager.Resolve: the requests of a util are a finite tree, so a util that requires itself is excluded; a list implementation belongs to one list.
- Managers.Manager.Build: the pre-build steps that append mux implementations to their mux are taken as done.
- LocalCache.StepRefines: the map insertion does not look at expiry, so an expired entry is not reserved again before Trim has run; that delay is not stated as a property. SetReserved is given a value, never nil.
- EtcdCache.StepRefines: uids must come from reservations; revisions are taken to fit into 64 bits, and the timestamp in a reserved value is not decoded.
- Reservations.OneCreatorPerLifetime: that one span at most is created is not claimed, since a span is created before SetReserved decides.
- Windows.WithinSpanIff: the span duration is in whole seconds; a fraction is cut off by the source in the window and not in the finish time.
- TtlCaches.TtlOnce.DoCleanup: when it is called (RunCleanupLoop and its wake-ups) is not modelled.
- ConfigClosure.FileProvider.Load: that bitmasks differ is taken from the file, where modifiers are keyed by them; ids are sets of bits instead of 32-bit words, steps are the text they are parsed from, and a name is its base and its modifiers.
- Diffs.CompareValues: paths are lists of elements, so that keys with dots do not collide; NaN is excluded.
- Kelemetrix.Consumer.HandleMessage: tag names are globally unique; floating-point quantities are reals, regular expressions are given matchers.
- SpanTrees.VisitMeans: times and durations are unbounded integers.
- Deque.Compact: its second branch leaves the end at the length of the buffer, which is no ring any more; excluded, as is an initial capacity of zero.
- The copying of trees by JSON, the copy visitor and the merging of two traces of one object.
- Root tags that "the newer value wins" is said of; the base start time has been lowered before.
- I/O: Kubernetes clients, etcd networking, Jaeger storage, servers, metrics, flags, logging, reflection.
- Snapshot and patch caches, the decaying informer, and rendering of spans and names.
- Visitors that add spans (group_by_trace_source.go) or change only tags and names; the fields of the logs that collapsing writes.
