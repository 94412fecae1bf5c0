# Proofs about the ZMS portal front end

This project models the algorithmic parts of the ZMS portal's front end and proves what they promise.
`dafny verify dfyconfig.toml` checks all of it.

* **Object graphs** (`JsHeap`, `DeepCopy`, `Extend`, `SharedTargets`, `CopyLaws`, `ValueEquality`).
  `util.deepCopy` copies arbitrary heap graphs through a cache of originals, `util.extend` merges in place,
  `isObjectValueEqual` compares. `Layout` describes a part of the heap together with the tree that it unfolds
  to, and may stop at any reference, so that what a merge does not enter can have any form. The functions
  `Merge` and `MergeAll` are the pure merge that the in-place code is proved against.
* **Routes and permissions** (`RoleClosure`, `RouteForest`, `RouteRows`, `RouteDepth`, `MenuLaws`,
  `RouteMenu`). The class `RouteMenu` flattens a route forest to rows, closes roles upwards, prunes the forest in
  place and builds the menu.
  `Rows`, `Fill`, `Prune`, `PrunedInPlace`, `Menu` and `Height` are the specification. What they mean is said in
  terms of the chains of routes from the top down (`Chain`) and of paths of roles (`Reaches`).
* **The bundle runtime** (`ModuleRequire`, `ChunkRuntime`, `ChunkInvariants`, `ChunkRuns`, `ChunkPromises`,
  `BundleRuntime`). Chunks arrive in any order, also before the runtime; requests fail, time out and are repeated.
  `ChunkRuntime` is a state machine whose log records what an observer sees, `ChunkRuns` and `ChunkPromises` state
  what holds of every run, and the class `Runtime` is proved to take exactly the steps of the machine.
* **Timers and events** (`Debounce`, `ProcessPolling` with `PollingOnce`, `PollingReports` and `RunState`,
  `TagsView` with `TabLaws`, `ChartScheduler` with `ChartProgress`). Each is a state machine with invariants over
  all runs and a class (`DebouncedFunction`, `RunStateView`, `Store`, `Charts`) whose methods, the event handlers of
  the source, each take one step of it.
* **The cluster map** (`ClusterMap`). The text form of a table, its parser, and the form check.

Where a loop of the source runs over the keys of an object, the model takes the keys in any order, so the
results hold for every order.

## What the code does not do

Some of the behaviour differs from what one would expect, and is proved as it is:

* A trailing `debounce` never passes arguments on: the rest parameter of the returned function hides the
  variable that `later` reads (`TrailingArgumentsAreLost`). It is exact in time if and only if no call falls in
  the millisecond in which a timer is about to fire (`OnTimeIffNoTies`).
* `fillPerms` keeps no set of visited roles, so it ends exactly on role graphs without a cycle above the role. A
  route with a child of its own role is such a cycle (`SameRoleBelowNeverEnds`).
* A granted route is lost when a route with a role has a child without one on its path (`BrokenPathIsLost`).
* A process can be reported twice when polls overlap, exactly if a poll takes a process that is no longer
  pending (`EachTakenOnceExactly`); and completion can be announced again exactly if a poll is still suspended
  when it is announced (`AnnouncedAgainExactly`). A log request that fails loses its process. When processes
  are stopped the logs are not awaited, so results hold promises.
* Closing a tab can drop the cache of another open tab of the same page (`CacheDropped`; `AllCachedKept` says
  exactly when).
* A chart request that fails leaves the page stuck: no further chart is ever requested (`StuckForever`), and without
  one every chart of the list can still be drawn (`AllDrawnExactlyUnlessFailed`).
* The form check accepts a cluster map without rows, which is saved as a text that reads back as a broken row.
* `isObjectValueEqual` does not tell an array from an object with the same keys, takes regular expressions for
  empty objects, and throws on null: exactly when is `ThrowsExactly`.
* Where a target of a deep `extend` shares a container between two fields, merging into the one changes the
  other (`SharedFieldFollows`).

## Model

| member | source | states |
|---|---|---|
| DeepCopy.DeepCopy | zms-portal/src/main/webapp-src/src/utils/util.js:232-260 | From a new cache, any object graph, cyclic or shared, is copied in finitely many steps to an isomorphic one: one fresh object for exactly each reachable original, same kind and keys, every field the image of the original field; nothing that existed is modified |
| DeepCopy.CopyInto | zms-portal/src/main/webapp-src/src/utils/util.js:232-259 | With any cache that pairs distinct originals with distinct copies, the call adds only finished fresh copies, keeps the pairing one to one and returns the image of its argument; terminates on the originals not yet cached |
| DeepCopy.CopyFields | zms-portal/src/main/webapp-src/src/utils/util.js:255-257 | Filling a copy key by key through the shared cache, in any key order, ends with every field being the image of the original field |
| DeepCopy.CacheIsIsomorphism | zms-portal/src/main/webapp-src/src/utils/util.js:241-253 | The finished cache is an isomorphism from the originals to the copies |
| DeepCopy.CacheHoldsReachable | zms-portal/src/main/webapp-src/src/utils/util.js:255-257 | Every object reachable from the argument has been cached |
| DeepCopy.PathsCorrespond | zms-portal/src/main/webapp-src/src/utils/util.js:232-260 | Every access path leads to corresponding places in original and copy, or to nothing in both |
| DeepCopy.AliasingPreserved | zms-portal/src/main/webapp-src/src/utils/util.js:241-245 | Two access paths meet in the copy exactly when they meet in the original: sharing and cycles are kept, none are added |
| Extend.ExtendDeep | zms-portal/src/main/webapp-src/src/utils/util.js:197-230 | A deep call merges all sources into the target from left to right as the pure merge of their trees, passes over null and undefined sources, leaves every source as it was, takes no object of a source into the target, and leaves fields that no source defines untouched down to their objects, which may be shared or cyclic |
| Extend.MergeInto | zms-portal/src/main/webapp-src/src/utils/util.js:201-227 | The loop over the keys of one source, in any order, updates the target in place to the pure merge of the two trees: at every depth, containers that meet a container of their kind stay the same objects, and fields that the source does not define stay untouched |
| Extend.MergeFieldInto | zms-portal/src/main/webapp-src/src/utils/util.js:202-225 | One turn of that loop, for one key of the source: no other field changes, and the source does not |
| Extend.MergeSource | zms-portal/src/main/webapp-src/src/utils/util.js:199-228 | One argument of a deep call: it is merged, and all sources are as they were |
| Extend.MergeValueInto | zms-portal/src/main/webapp-src/src/utils/util.js:211-225 | Undefined is skipped, a container is merged, everything else overwrites |
| Extend.MergeContainerInto | zms-portal/src/main/webapp-src/src/utils/util.js:211-220 | A container of a source is merged into the container at hand or a new one, which becomes the field; the rest of the target keeps its place |
| Extend.MergeClone | zms-portal/src/main/webapp-src/src/utils/util.js:212-220 | The recursive call merges into the container at hand or a new one and changes nothing else |
| Extend.CoveredAfter | zms-portal/src/main/webapp-src/src/utils/util.js:197-228 | What later sources are merged into stays a tree after an earlier source was merged |
| Extend.CloneFor | zms-portal/src/main/webapp-src/src/utils/util.js:212-217 | The container at the field is reused exactly if it is of the same kind, else a new one is made |
| Extend.MergeOnStep | zms-portal/src/main/webapp-src/src/utils/util.js:201-226 | Taking one more key in any order advances the pure merge by exactly that key |
| Extend.ExtendShallow | zms-portal/src/main/webapp-src/src/utils/util.js:197-230 | A shallow call overwrites with the defined fields of each source in turn, whatever the sources share with the target |
| Extend.AssignInto | zms-portal/src/main/webapp-src/src/utils/util.js:201-226 | One source of a shallow call, for every key order: its defined fields other than the target itself are set, all others stay |
| Extend.LastSourceWins | zms-portal/src/main/webapp-src/src/utils/util.js:197-228 | The last source that gives a field a value other than undefined and the target itself decides it |
| Extend.NoSourceKeeps | zms-portal/src/main/webapp-src/src/utils/util.js:197-228 | A field that no source gives such a value stays as it was |
| Extend.MergeLookup | zms-portal/src/main/webapp-src/src/utils/util.js:201-226 | Field by field: what a deep merge leaves at each key |
| Extend.MergeFieldExactly | zms-portal/src/main/webapp-src/src/utils/util.js:211-225 | A container is merged into the one of its kind that is there, and into an empty one otherwise; any other value overwrites |
| Extend.LastLeafWins | zms-portal/src/main/webapp-src/src/utils/util.js:197-228 | In a deep call, too, the last source that gives a field a value that is no container decides it |
| Extend.UngivenStays | zms-portal/src/main/webapp-src/src/utils/util.js:197-228 | A field for which no source of a deep call has a value other than undefined stays as it is |
| CopyLaws.MergeIntoEmpty | zms-portal/src/main/webapp-src/src/utils/util.js:197-230 | A deep extend of an empty container gives the source without its undefined fields, at every depth |
| CopyLaws.MergeIdempotent | zms-portal/src/main/webapp-src/src/utils/util.js:197-230 | Merging the same source a second time changes nothing |
| CopyLaws.ExtendAgreesWithDeepCopy | zms-portal/src/main/webapp-src/src/utils/util.js:197-260 | The copy of acyclic data unfolds to the same tree as the original, and a deep extend into an empty container gives that tree exactly when no field is undefined |
| SharedTargets.SharedFieldFollows | zms-portal/src/main/webapp-src/src/utils/util.js:201-226 | Where two fields of the target refer to one container and a source is merged into one of them, the other one changes with it |
| SharedTargets.TreesMissSharing | zms-portal/src/main/webapp-src/src/utils/util.js:201-226 | For such a target the merge of the trees is right exactly if it changes nothing |
| SharedTargets.SharedFieldChangesToo | zms-portal/src/main/webapp-src/src/utils/util.js:197-230 | Such a target, for every pair of field names |
| CopyLaws.TreeHasUnsharedLayout | zms-portal/src/main/webapp-src/src/utils/util.js:197-230 | A value whose objects are reached on one path each has an unfolding without repetition, as a target needs it |
| CopyLaws.WholeIsCovered | zms-portal/src/main/webapp-src/src/utils/util.js:197-230 | A target that is unfolded completely is ready for every source |
| CopyLaws.AcyclicHasLayout | zms-portal/src/main/webapp-src/src/utils/util.js:197-230 | Every acyclic value has the complete finite unfolding that the merge results ask of a source |
| ValueEquality.EqualExactly | zms-portal/src/main/webapp-src/src/modules/components/base-form/utils.js:97-114 | For all acyclic values, null and NaN included: it says yes exactly if both values are the same map from keys to values at every depth and hold neither null nor NaN, and it throws only if one of them holds a null |
| ValueEquality.ThrowsExactly | zms-portal/src/main/webapp-src/src/modules/components/base-form/utils.js:97-114 | For all acyclic values it throws exactly if, walking both, it meets a null opposite a null or an object before anything that differs |
| ValueEquality.SameShapeThrowsOnNull | zms-portal/src/main/webapp-src/src/modules/components/base-form/utils.js:97-114 | Of two values that are the same map, without NaN, it says yes if they hold no null and throws if they do |
| ValueEquality.NullThrows | zms-portal/src/main/webapp-src/src/modules/components/base-form/utils.js:97-114 | An object with a null field cannot be compared with itself |
| ValueEquality.EqualityIsSameShape | zms-portal/src/main/webapp-src/src/modules/components/base-form/utils.js:97-114 | Without null the comparison never throws and holds exactly if both values are the same map from keys to values at every depth and hold no NaN, for every order of the key lists |
| ValueEquality.EqualityIsEquivalence | zms-portal/src/main/webapp-src/src/modules/components/base-form/utils.js:97-114 | It is symmetric and transitive, and reflexive exactly on values without NaN |
| ValueEquality.NaNShows | zms-portal/src/main/webapp-src/src/modules/components/base-form/utils.js:112-112 | Values of one shape agree on whether they hold a NaN |
| ValueEquality.DeepCopyIsEqual | zms-portal/src/main/webapp-src/src/modules/components/base-form/utils.js:97-114 | Every deep copy of an acyclic value without null compares equal to it, unless it holds a NaN; with a null and no NaN the comparison throws |
| RouteMenus.RouteMenu.constructor | zms-portal/src/main/webapp-src/src/utils/route-menu.js:26-32 | A new instance works on a copy of the route forest made of objects of its own, with the permissions given or none |
| RouteMenus.RouteMenu.PreRouteArr | zms-portal/src/main/webapp-src/src/utils/route-menu.js:36-48 | Appends exactly the preorder rows of the forest and advances the id counter by their number |
| RouteMenus.RouteMenu.PreRoute | zms-portal/src/main/webapp-src/src/utils/route-menu.js:38-46 | One route: its row gets the next id, the rows below it get that id as their parent |
| RouteRows.RowIds | zms-portal/src/main/webapp-src/src/utils/route-menu.js:36-48 | Ids are consecutive in preorder, one per route, and each parent id is the start value or a smaller id of the same forest |
| RouteRows.RebuildInverts | zms-portal/src/main/webapp-src/src/utils/route-menu.js:36-48 | Reading the rows back gives the shape and the roles of the forest and whatever rows follow |
| RouteRows.RowsDetermineForest | zms-portal/src/main/webapp-src/src/utils/route-menu.js:36-48 | Two forests give the same rows exactly when they have the same shape and roles |
| RouteRows.RowEdgesAreForestEdges | zms-portal/src/main/webapp-src/src/utils/route-menu.js:53-61 | The relation that the role search climbs on rows is the parent relation of the forest |
| RoleClosure.FillTerminatesIffAcyclic | zms-portal/src/main/webapp-src/src/utils/route-menu.js:51-65 | The unguarded recursion ends if and only if no path upwards from the role meets a role twice |
| RoleClosure.FillIsReach | zms-portal/src/main/webapp-src/src/utils/route-menu.js:51-65 | Whenever it ends, the roles pushed are exactly those reachable from the role |
| RoleClosure.FillCycle | zms-portal/src/main/webapp-src/src/utils/route-menu.js:59-59 | On a role that leads back to itself the recursion never ends |
| RoleClosure.ReachesTransitive | zms-portal/src/main/webapp-src/src/utils/route-menu.js:51-65 | Reachability of roles is transitive |
| RouteMenus.RouteMenu.FillPerms | zms-portal/src/main/webapp-src/src/utils/route-menu.js:51-65 | Where the recursion ends, adds exactly the roles reachable from the role and keeps those already there |
| RouteMenus.RouteMenu.Fill | zms-portal/src/main/webapp-src/src/utils/route-menu.js:51-65 | The recursion pushes exactly the sequence that the specification gives, repetitions included |
| RouteMenus.RouteMenu.FillParents | zms-portal/src/main/webapp-src/src/utils/route-menu.js:55-61 | The inner loop over the rows: each parent role is pushed and climbed in turn |
| RouteMenus.RouteMenu.GetPermission | zms-portal/src/main/webapp-src/src/utils/route-menu.js:68-71 | Keeps the first of each permission, in the order in which they first occur |
| RouteMenus.RouteMenu.FilterAsyncRouter | zms-portal/src/main/webapp-src/src/utils/route-menu.js:110-121 | Returns the pruned forest; the array passed in keeps all its routes, the kept ones with their children pruned in place; nothing but children of these routes changes |
| RouteMenus.RouteMenu.FilterRoute | zms-portal/src/main/webapp-src/src/utils/route-menu.js:111-119 | The callback: keeps a route exactly if its role is empty or granted, and then prunes what lies below it |
| RouteRows.SurvivesIffPermitted | zms-portal/src/main/webapp-src/src/utils/route-menu.js:101-121 | A route is found after filtering, below its filtered ancestors, exactly when every route on its path has no role, an empty one, or one that is granted |
| RouteRows.AncestorsReached | zms-portal/src/main/webapp-src/src/utils/route-menu.js:36-65 | The role of a route reaches every role above it, if no route with a role has a role-less child on the path |
| RouteRows.GrantedRouteSurvives | zms-portal/src/main/webapp-src/src/utils/route-menu.js:36-121 | With all roles that a role reaches, a route of that role survives with its whole ancestor path under that condition |
| RouteRows.PermittedRouteSurvives | zms-portal/src/main/webapp-src/src/utils/route-menu.js:36-121 | With the permissions of any set of granted roles, such a route survives exactly when its own role is among the permissions |
| RouteRows.BrokenPathIsLost | zms-portal/src/main/webapp-src/src/utils/route-menu.js:51-121 | Without that condition a granted route can be lost: a chain of roles admin, none, user |
| RouteRows.SameRoleBelowNeverEnds | zms-portal/src/main/webapp-src/src/utils/route-menu.js:36-65 | A route with a child of its own role is enough of a cycle: granting that role never ends |
| RouteForest.PruningPreservesMenu | zms-portal/src/main/webapp-src/src/utils/route-menu.js:74-121 | The menu of the pruned routes, both of the array returned and of the array pruned in place, is the menu of the unpruned routes |
| RouteMenus.RouteMenu.MenuTree | zms-portal/src/main/webapp-src/src/utils/route-menu.js:74-98 | Builds the menu of the forest for one navigation entry without changing anything: its items, each below those around it, are in preorder exactly those that the chains of routes call for |
| RouteMenus.RouteMenu.MenuItems | zms-portal/src/main/webapp-src/src/utils/route-menu.js:76-96 | What one route adds to it, as MenuOf says, whose items MenuItemsExactly pins down |
| MenuLaws.MenuIsWanted | zms-portal/src/main/webapp-src/src/utils/route-menu.js:74-98 | The items of a menu, in preorder and each with the items around it, are exactly what the chains of routes in preorder call for: the labelled routes of each chain that ends in a labelled route and whose routes all are of this navigation entry or of none where it is the default, are not hidden, and have an empty or granted role |
| MenuLaws.MenuItemsExactly | zms-portal/src/main/webapp-src/src/utils/route-menu.js:74-98 | An item stands in the menu below certain others exactly if they come from the labelled routes of such a chain, with the meta data, icon, path and name of their routes |
| MenuLaws.PathsDetermineMenu | zms-portal/src/main/webapp-src/src/utils/route-menu.js:86-92 | The items in preorder, each with those around it, leave only one menu |
| MenuLaws.MenuInOrder | zms-portal/src/main/webapp-src/src/utils/route-menu.js:76-96 | The items of routes that follow others come behind theirs, and a shown route without a label leaves its place to the items below it |
| RouteMenus.RouteMenu.GetFloor | zms-portal/src/main/webapp-src/src/utils/route-menu.js:124-141 | Returns the length of the longest chain of routes, 0 without routes, and marks every route with its place on its chain, on a fresh copy unless the caller asks for the routes themselves |
| RouteMenus.RouteMenu.Each | zms-portal/src/main/webapp-src/src/utils/route-menu.js:128-138 | The walk: the running maximum ends as the greatest depth, which HeightIsDepth ties to chains, and every node below is marked with its depth |
| RouteMenus.RouteMenu.Mark | zms-portal/src/main/webapp-src/src/utils/route-menu.js:129-137 | One node: it is marked, and what lies below it with the next depths |
| RouteMenus.RouteMenu.MarkAll | zms-portal/src/main/webapp-src/src/utils/route-menu.js:139-140 | The walk from the top: it returns the greatest depth and marks every route with its place on its chain |
| RouteDepth.HeightIsDepth | zms-portal/src/main/webapp-src/src/utils/route-menu.js:124-141 | The height is the length of the longest chain of routes: no chain is longer, and if there is a route some chain is as long |
| RouteDepth.MarksArePlaces | zms-portal/src/main/webapp-src/src/utils/route-menu.js:128-139 | Marks that count the depth from 1 give each route its place on every chain to it |
| RouteMenus.RouteMenu.GrantRoles | zms-portal/src/main/webapp-src/src/store/modules/user.js:48-51 | After the first four calls on a fresh instance the permissions are, without repetition, the roles reachable from commonUser, and from admin for an administrator |
| RouteMenus.RouteMenu.FilterOwn | zms-portal/src/main/webapp-src/src/store/modules/user.js:52-52 | The instance keeps its own top-level array, whose routes are pruned in place, and gets the pruned forest to add |
| RouteMenus.RouteMenu.SetPermissions | zms-portal/src/main/webapp-src/src/store/modules/user.js:47-56 | The whole mutation: reachable permissions, pruned routes, the routes left in place, and the length of the longest chain of routes to add, where 1 counts as 2 |
| RouteMenus.RouteMenu.RouteDeep | zms-portal/src/main/webapp-src/src/store/modules/user.js:53-55 | The length of the longest chain of the routes to add, where 1 counts as 2 |
| RouteMenus.RouteMenu.SetMenu | zms-portal/src/main/webapp-src/src/store/modules/user.js:57-61 | Run after it, on the routes as the filter left them, gives the menu of the routes as they were: exactly the items that their chains call for, in preorder |
| RouteMenus.PageDetail | zms-portal/src/main/webapp-src/src/utils/route-menu.js:144-167 | Ends for every index up to the depth and builds a chain of layouts of fresh objects above one detail page |
| RouteMenus.PageDetailEndsExactly | zms-portal/src/main/webapp-src/src/utils/route-menu.js:144-167 | The recursion ends if and only if the index does not start beyond the depth |
| RouteMenus.DetailHeight | zms-portal/src/main/webapp-src/src/utils/route-menu.js:124-167 | The depth found for a detail page built from index 1 is the depth asked for |
| RouteMenus.DetailLevels | zms-portal/src/main/webapp-src/src/utils/route-menu.js:144-167 | Level by level: layouts with an empty path and one route below, of which the first three have the component of their level, and at the depth asked for the page with the path, name, component and meta data given |
| RouteMenus.CopyForest | zms-portal/src/main/webapp-src/src/utils/util.js:232-260 | Copying a route forest gives the same forest made of fresh objects |
| ModuleRequire.RequireSound | zms-portal/src/main/resources/static/js/runtime.85a79e9d.js:1 | A memoised require, cyclic or not, runs each factory at most once, never an installed one; unless something throws it installs exactly what it runs, dependencies included |
| ModuleRequire.RequireAllSound | zms-portal/src/main/resources/static/js/runtime.85a79e9d.js:1 | The same for the requires of one factory, one after the other |
| ModuleRequire.RequireThrowsExactly | zms-portal/src/main/resources/static/js/runtime.85a79e9d.js:1 | A require throws exactly if something that it needs, directly or not, is neither registered nor installed |
| ChunkInvariants.RunValid | zms-portal/src/main/resources/static/js/runtime.85a79e9d.js:1 | Invariant of every run: each pending chunk has exactly its own live script and waits for an attempt made for it, no promise is settled twice or while a chunk waits for it, no factory runs twice, every entry is deferred or was executed once when it was ready, and unless something threw exactly the entries that are not ready are deferred |
| ChunkInvariants.CallbackValid | zms-portal/src/main/resources/static/js/runtime.85a79e9d.js:1 | A delivery keeps the invariant |
| ChunkInvariants.RequestValid | zms-portal/src/main/resources/static/js/runtime.85a79e9d.js:1 | A request keeps the invariant |
| ChunkInvariants.ScriptDoneValid | zms-portal/src/main/resources/static/js/runtime.85a79e9d.js:1 | The load, error or timeout of a script keeps the invariant |
| ChunkInvariants.CheckEntries | zms-portal/src/main/resources/static/js/runtime.85a79e9d.js:1 | The check of the deferred entries changes no chunk, loses no entry, and unless one throws keeps exactly those that are not ready, in order |
| ChunkInvariants.DeliverLog | zms-portal/src/main/resources/static/js/runtime.85a79e9d.js:1 | A delivery registers its modules and then settles, in order, the promises Waiting lists, which WaitingExactly pins down |
| ChunkInvariants.DeliverResolves | zms-portal/src/main/resources/static/js/runtime.85a79e9d.js:1 | It resolves a promise only for a chunk that it names and that the attempt was made for |
| ChunkInvariants.WaitingEffect | zms-portal/src/main/resources/static/js/runtime.85a79e9d.js:1 | The promises that a delivery resolves are distinct and belong to chunks that it loads |
| ChunkInvariants.WaitingExactly | zms-portal/src/main/resources/static/js/runtime.85a79e9d.js:1 | They are exactly the promises of the chunks named that are pending, also when an id is repeated |
| ChunkInvariants.DeliverSettles | zms-portal/src/main/resources/static/js/runtime.85a79e9d.js:1 | After a delivery exactly the promises settled before and those of the pending chunks that it names are settled |
| ChunkInvariants.CheckRunsInOrder | zms-portal/src/main/resources/static/js/runtime.85a79e9d.js:1 | Unless one throws, a check executes exactly the entries whose chunks are all loaded, in their order |
| ChunkPromises.SettlesExactly | zms-portal/src/main/resources/static/js/runtime.85a79e9d.js:1 | The part of the log that one event adds resolves a promise exactly if it is a payload that names a chunk waiting for it, and rejects one exactly if it is the end of its own script while its chunk waits |
| ChunkPromises.ArrivalResolves | zms-portal/src/main/resources/static/js/runtime.85a79e9d.js:1 | Over every run: a payload that names a waiting chunk resolves the promise of that chunk in the same call, and loads it |
| ChunkPromises.FailureRejects | zms-portal/src/main/resources/static/js/runtime.85a79e9d.js:1 | Over every run: when the script of a waiting chunk ends, its promise is rejected in that call and the next request makes a new attempt; when the chunk has arrived, its end changes nothing else |
| ChunkPromises.NoPromiseForgotten | zms-portal/src/main/resources/static/js/runtime.85a79e9d.js:1 | Over every run each promise handed out has been settled, or its chunk waits for it and its script is still to end |
| ChunkInvariants.LoadedStays | zms-portal/src/main/resources/static/js/runtime.85a79e9d.js:1 | A loaded chunk stays loaded under every event |
| ChunkRuns.NothingLeftReady | zms-portal/src/main/resources/static/js/runtime.85a79e9d.js:1 | After every callback no deferred entry has all its chunks and each complete entry has been executed, whatever threw before, if what is complete has what it needs by then |
| ChunkRuns.ReplayIsPush | zms-portal/src/main/resources/static/js/runtime.85a79e9d.js:1 | Starting with payloads pushed before the runtime gives the state of a runtime that gets them right after its start, unless one throws |
| ChunkRuns.RunLoads | zms-portal/src/main/resources/static/js/runtime.85a79e9d.js:1 | A chunk is loaded exactly if some delivery named it, whatever was requested, failed or timed out in between |
| ChunkRuns.MainRunsExactlyWhenComplete | zms-portal/src/main/resources/static/js/runtime.85a79e9d.js:1 | If whatever is complete has what it needs, the entry module has run, once, exactly if its entry and all its chunks have arrived, in whatever order, with any requests and failures in between |
| ChunkRuns.SupportedRunsDoNotThrow | zms-portal/src/main/resources/static/js/runtime.85a79e9d.js:1 | A run throws nothing if at every time the main module of each complete entry has what it needs |
| ChunkRuns.ThrowsExactlyWhenUnsupported | zms-portal/src/main/resources/static/js/runtime.85a79e9d.js:1 | For the payloads of one build that is the exact condition: a run throws if and only if at some time a complete entry lacks something |
| ChunkRuns.MainNeverRunsEarly | zms-portal/src/main/resources/static/js/runtime.85a79e9d.js:1 | Whatever throws: the entry module never runs before it is complete, no factory runs twice, and no entry is lost |
| ChunkRuns.MainRunsInCompletingCall | zms-portal/src/main/resources/static/js/runtime.85a79e9d.js:1 | It runs in the very event that completes it |
| ChunkRuns.MainRunsInAnyOrder | zms-portal/src/main/resources/static/js/runtime.85a79e9d.js:1 | The same when any of the payloads were pushed before the runtime started |
| ChunkRuns.InjectedExactlyWhenAbsent | zms-portal/src/main/resources/static/js/runtime.85a79e9d.js:1 | A script is injected exactly for a request of a chunk that is neither loaded nor pending; a failed one can be requested again |
| ChunkRuns.RunsAreSafe | zms-portal/src/main/resources/static/js/runtime.85a79e9d.js:1 | Over every run: loaded chunks stay loaded, no promise is settled twice, each is resolved only by a registered payload that names a chunk for which the attempt was made, no factory runs twice |
| BundleRuntime.Runtime.constructor | zms-portal/src/main/resources/static/js/runtime.85a79e9d.js:1 | Replays the payloads queued before the start, then checks once more; the state is that of the specification |
| BundleRuntime.Runtime.Require | zms-portal/src/main/resources/static/js/runtime.85a79e9d.js:1 | The recursive require with its cache of installed modules is the specification, what it runs and when it throws included |
| BundleRuntime.Runtime.RunFactory | zms-portal/src/main/resources/static/js/runtime.85a79e9d.js:1 | The requires of a factory in order, up to one that throws |
| BundleRuntime.Runtime.AllLoaded | zms-portal/src/main/resources/static/js/runtime.85a79e9d.js:1 | True exactly if every chunk of the entry is loaded |
| BundleRuntime.Runtime.RunEntry | zms-portal/src/main/resources/static/js/runtime.85a79e9d.js:1 | Runs the main module of an entry |
| BundleRuntime.Runtime.CheckDeferred | zms-portal/src/main/resources/static/js/runtime.85a79e9d.js:1 | The loop that splices ready entries out of the list while walking it leaves what the specification of the check leaves |
| BundleRuntime.Runtime.Callback | zms-portal/src/main/resources/static/js/runtime.85a79e9d.js:1 | The callback of a chunk script is the delivery step followed by the check, throws included; it resolves the promise of every chunk named that was pending |
| BundleRuntime.Runtime.RegisterModules | zms-portal/src/main/resources/static/js/runtime.85a79e9d.js:1 | Copies the modules of a payload into the table, in any key order |
| BundleRuntime.Runtime.ResolveAll | zms-portal/src/main/resources/static/js/runtime.85a79e9d.js:1 | Resolves the collected promises in order |
| BundleRuntime.Runtime.MarkIds | zms-portal/src/main/resources/static/js/runtime.85a79e9d.js:1 | Marks the chunks loaded and collects exactly the promises of those that were pending, also when an id is repeated |
| BundleRuntime.Runtime.Request | zms-portal/src/main/resources/static/js/runtime.85a79e9d.js:1 | A request is the request step and returns the promise of the pending attempt, if there is one |
| BundleRuntime.Runtime.ScriptDone | zms-portal/src/main/resources/static/js/runtime.85a79e9d.js:1 | The handler of a script is the settling step |
| Debounce.TimerInvariantHolds | zms-portal/src/main/webapp-src/src/utils/index.js:15-48 | In every run at most one timer is pending, with a deadline between now and wait after the latest call; the closure variable for arguments is never set |
| Debounce.DebouncedWithoutTies | zms-portal/src/main/webapp-src/src/utils/index.js:15-48 | If no call falls in the millisecond in which a timer is about to fire, a trailing debounce invokes once per burst, exactly wait after its last call and with its this; an immediate one at the first call of each burst |
| Debounce.OnTimeIffNoTies | zms-portal/src/main/webapp-src/src/utils/index.js:18-33 | For a positive wait, and once no timer is pending, every invocation comes exactly wait after the call before it if and only if there was no such tie |
| Debounce.TiesShow | zms-portal/src/main/webapp-src/src/utils/index.js:23-30 | A tie is either still to fire or has led to an invocation in the millisecond of a call |
| Debounce.TrailingArgumentsAreLost | zms-portal/src/main/webapp-src/src/utils/index.js:29-35 | A trailing invocation passes the arguments of the call it stands for exactly if that call had none: the parameter of the returned function hides the variable that is read |
| Debounce.ArgumentLost | zms-portal/src/main/webapp-src/src/utils/index.js:15-48 | One call with arguments and its timer: the function is invoked without them |
| Debounce.TieFiresEarly | zms-portal/src/main/webapp-src/src/utils/index.js:15-48 | Two calls with such a tie: the function is invoked at once instead of after the wait |
| ProcessPolling.NothingIsLost | zms-portal/src/main/webapp-src/src/views/service/instance/run-state.vue:98-175 | In every interleaving of overlapping polls whose replies speak only of queried processes, each process is pending, reported, in the hands of a poll that awaits its logs, or lost to a failed log request; and none is made up |
| ProcessPolling.ProceedConserves | zms-portal/src/main/webapp-src/src/views/service/instance/run-state.vue:118-166 | The loop over a reply keeps that conservation, wherever it has to wait |
| ProcessPolling.EachReportedOnce | zms-portal/src/main/webapp-src/src/views/service/instance/run-state.vue:98-175 | When polls do not overlap and replies have no repeats, no process is reported twice and completion is announced at most once; by then all but those lost to failed log requests were reported |
| PollingOnce.EachTakenOnceExactly | zms-portal/src/main/webapp-src/src/views/service/instance/run-state.vue:112-175 | For one list of distinct processes and every interleaving of polls with fitting replies: no process is taken twice if and only if each poll takes only what is still pending; then none is reported twice, and once no log is awaited or lost that is the exact condition for it |
| PollingOnce.AnnouncedAgainExactly | zms-portal/src/main/webapp-src/src/views/service/instance/run-state.vue:168-174 | Once completion was announced, it can be announced again, without a further list, if and only if some poll is still suspended |
| PollingOnce.RunAccounts | zms-portal/src/main/webapp-src/src/views/service/instance/run-state.vue:98-175 | In every run each process was taken exactly as often as it is reported, in hand, or lost |
| ProcessPolling.OverlappingPollsRepeat | zms-portal/src/main/webapp-src/src/views/service/instance/run-state.vue:112-174 | Polls that overlap can report a process twice and announce completion twice |
| PollingReports.LoopTakesSettled | zms-portal/src/main/webapp-src/src/views/service/instance/run-state.vue:118-174 | The loop over a reply goes on to the first started process whose logs it has to wait for, or to the end; the processes it takes are exactly those that an item on its way says to be neither stopping nor running, or when starting to have failed, or to have succeeded and neither be starting nor stopped; at the end completion is announced exactly if nothing is pending |
| PollingReports.NotSettledStays | zms-portal/src/main/webapp-src/src/views/service/instance/run-state.vue:120-146 | A process of which the reply says none of this stays pending |
| PollingReports.SettledReplyCompletes | zms-portal/src/main/webapp-src/src/views/service/instance/run-state.vue:118-174 | A reply that settles every pending process without a log to wait for completes the run |
| PollingReports.TakenOnlyIfSettled | zms-portal/src/main/webapp-src/src/views/service/instance/run-state.vue:120-146 | Over every run a process is taken only after some reply said of it, when stopping, that it is neither STOPPING nor RUNNING, and when starting FAILURE, or SUCCESS and neither STARTING nor STOPPED |
| PollingReports.ReportsAreTrue | zms-portal/src/main/webapp-src/src/views/service/instance/run-state.vue:126-164 | Over every run each report is about an item of a reply: same process, status true exactly for STOPPED when stopping and RUNNING when starting, its two logs as the state of the item calls for and each in its place, and a name, if any, that a list gave for it |
| PollingReports.TextsInPlace | zms-portal/src/main/webapp-src/src/views/service/instance/run-state.vue:150-164 | A poll that waits for logs reports its process next, the first text as the error log and the second as the output |
| PollingReports.FirstItem | zms-portal/src/main/webapp-src/src/views/service/instance/run-state.vue:119-165 | An item without logs to wait for is left alone or reported at once |
| PollingReports.ReportsAreNamed | zms-portal/src/main/webapp-src/src/views/service/instance/run-state.vue:104-106 | With one list of processes and replies about them every report has the name that the list gave |
| PollingReports.ListIsAppended | zms-portal/src/main/webapp-src/src/views/service/instance/run-state.vue:98-111 | A list is appended to the pending processes, its names replace those known, and the timer runs |
| PollingReports.WithoutInOrder | zms-portal/src/main/webapp-src/src/views/service/instance/run-state.vue:122-123 | Removing an id leaves the others in order |
| RunState.RunStateView.GetProcessRunningStatus | zms-portal/src/main/webapp-src/src/views/service/instance/run-state.vue:112-116 | A tick asks for exactly the pending processes, if there are any |
| RunState.RunStateView.CheckProcessState | zms-portal/src/main/webapp-src/src/views/service/instance/run-state.vue:98-111 | The loop over the processes given: ids appended and names replaced |
| RunState.RunStateView.Remove | zms-portal/src/main/webapp-src/src/views/service/instance/run-state.vue:122-123 | The filter: the pending ids without the one, in order |
| RunState.RunStateView.Loop | zms-portal/src/main/webapp-src/src/views/service/instance/run-state.vue:118-166 | The loop over the items up to the next await is the continuation that LoopTakesSettled and ReportsAreTrue describe |
| RunState.RunStateView.Take | zms-portal/src/main/webapp-src/src/views/service/instance/run-state.vue:119-165 | One item: left alone, reported, or taken in hand until its logs arrive, as FirstItem and TextsInPlace spell out |
| TagsView.RunValid | zms-portal/src/main/webapp-src/src/store/modules/tags-view.js:69-159 | After every sequence of mutations the open tabs are pairwise different, none has the name of a default view, and each name is cached at most as often as there are open tabs of that name to be cached |
| TagsView.CacheDropped | zms-portal/src/main/webapp-src/src/store/modules/tags-view.js:107-125 | Two open tabs of one page: when the first is closed the second stays open without its cache |
| TagsView.AllCachedKept | zms-portal/src/main/webapp-src/src/store/modules/tags-view.js:69-159 | A mutation keeps every open tab cached that should be, unless it closes a tab while another of its name stays open and the name is cached exactly once |
| TabLaws.OpenTabsDiffer | zms-portal/src/main/webapp-src/src/store/modules/tags-view.js:69-159 | In every run open tabs differ in their name, their parameters or their query |
| TabLaws.AddOpensExactly | zms-portal/src/main/webapp-src/src/store/modules/tags-view.js:70-106 | A tab is opened at the end exactly if its name is no default view and no open tab has its name, parameters and query; then exactly its name is added to those cached, if it is to be |
| TabLaws.LabelAppends | zms-portal/src/main/webapp-src/src/store/modules/tags-view.js:85-88 | The label is followed by each parameter in turn |
| TabLaws.DelClosesExactly | zms-portal/src/main/webapp-src/src/store/modules/tags-view.js:107-125 | The first tab with this name, these parameters and this query is closed and no other, and the first entry of its name dropped |
| TabLaws.ClosingKeepsExactly | zms-portal/src/main/webapp-src/src/store/modules/tags-view.js:126-159 | The closing mutations keep exactly the tabs that cannot be closed and the one with this name, these parameters and this query, and exactly the names of those left that are to be cached |
| TabLaws.KeptInOrder | zms-portal/src/main/webapp-src/src/store/modules/tags-view.js:126-159 | The tabs that stay keep their order |
| TagsView.Store.AddVisitedView | zms-portal/src/main/webapp-src/src/store/modules/tags-view.js:70-106 | Opens a tab exactly if it is no default view and not open yet, and caches its name once |
| TagsView.Store.DelVisitedView | zms-portal/src/main/webapp-src/src/store/modules/tags-view.js:107-125 | Closes the first such tab and drops the first such name |
| TagsView.Store.SpliceTab | zms-portal/src/main/webapp-src/src/store/modules/tags-view.js:108-117 | The loop that splices the tab out |
| TagsView.Store.SpliceName | zms-portal/src/main/webapp-src/src/store/modules/tags-view.js:118-124 | The loop that splices the name out |
| TagsView.Store.Retain | zms-portal/src/main/webapp-src/src/store/modules/tags-view.js:126-159 | The loop of both closing mutations: the tabs that stay, in order, and one name for each of them to be cached |
| TagsView.Store.DelOthersViews | zms-portal/src/main/webapp-src/src/store/modules/tags-view.js:126-144 | Closes all closable tabs but one |
| TagsView.Store.DelAllViews | zms-portal/src/main/webapp-src/src/store/modules/tags-view.js:145-159 | Closes all closable tabs |
| ChartScheduler.RequestsFollowTheList | zms-portal/src/main/webapp-src/src/views/service/monitor/kafka-jvm.js:109-226 | In every interleaving of replies, failures, repeated finished events, watcher runs and clicks: metrics are requested in list order, each at most once, the next only after all before it have finished, so at most one is in flight |
| ChartScheduler.BatchesAreComplete | zms-portal/src/main/webapp-src/src/views/service/monitor/kafka-jvm.js:211-226 | A click does something only when every metric shown so far has finished, and then starts the next four of the list and requests the first of them |
| ChartScheduler.WatcherMovesOn | zms-portal/src/main/webapp-src/src/views/service/monitor/kafka-jvm.js:109-120 | After finished charts that it has not seen, the watcher requests the next chart of the batch, or closes the batch after the last |
| ChartScheduler.RunValid | zms-portal/src/main/webapp-src/src/views/service/monitor/kafka-jvm.js:109-226 | The invariant of every run: where the batch starts, which of it are finished, requested and seen; nothing is under way exactly if there are no brokers |
| ChartProgress.BusyExactlyWithBrokers | zms-portal/src/main/webapp-src/src/views/service/monitor/kafka-jvm.js:122-130 | With brokers the session starts with exactly the first metric requested and in flight; a run has requested nothing exactly if there are no brokers |
| ChartProgress.AllDrawnExactlyUnlessFailed | zms-portal/src/main/webapp-src/src/views/service/monitor/kafka-jvm.js:109-226 | From a run with brokers some further events request and draw every chart of the list if and only if every request so far has been answered or is in flight, that is, none has failed; and no failure is needed for it |
| ChartProgress.EveryChartIsRequested | zms-portal/src/main/webapp-src/src/views/service/monitor/kafka-jvm.js:109-226 | Every run in which no request failed has such a continuation, after which the list has been requested and drawn in its order |
| ChartProgress.SomethingIsDue | zms-portal/src/main/webapp-src/src/views/service/monitor/kafka-jvm.js:109-226 | In each state short of that, a reply, a chart that is drawn, the watcher or a click brings it nearer |
| ChartProgress.StuckForever | zms-portal/src/main/webapp-src/src/views/service/monitor/kafka-jvm.js:174-180 | After a request that failed no event of the session leads to another request or another chart |
| ChartScheduler.FinishedValid | zms-portal/src/main/webapp-src/src/views/service/monitor/state-monitor.vue:242-247 | A chart that reports, also again or from an earlier batch, keeps the invariant |
| ChartScheduler.Charts.TriggerFinish | zms-portal/src/main/webapp-src/src/views/service/monitor/state-monitor.vue:242-247 | The loop that looks for the chart in the batch: it is counted once, and only if it belongs there |
| ChartScheduler.Charts.LoadViewMoreKafkaJvmData | zms-portal/src/main/webapp-src/src/views/service/monitor/kafka-jvm.js:217-226 | With the length computed as the code does, the next block of the list becomes the batch |
| ClusterMap.RoundTrip | zms-portal/src/main/webapp-src/src/views/service/instance/config.vue:194-291 | Splitting the saved text gives back exactly the rows that were not deleted, in order, if and only if there is one and all names are texts without comma and colon |
| ClusterMap.TextRoundTrip | zms-portal/src/main/webapp-src/src/views/service/instance/config.vue:194-291 | A text that was loaded is saved unchanged if and only if each of its parts has exactly one colon |
| ClusterMap.SavedParts | zms-portal/src/main/webapp-src/src/views/service/instance/config.vue:280-291 | The saved text has one part for each row that was not deleted, in order: its origin, a colon and its target |
| ClusterMap.LiveExactly | zms-portal/src/main/webapp-src/src/views/service/instance/config.vue:282-285 | Exactly the rows that were not deleted are saved and checked |
| ClusterMap.ProperExactly | zms-portal/src/main/webapp-src/src/views/service/instance/config.vue:316-341 | What the form asks: both names of each row are texts that are not empty, and no two rows have one origin |
| ClusterMap.SplitOfJoin | zms-portal/src/main/webapp-src/src/views/service/instance/config.vue:200-201 | Splitting undoes joining when no part holds the separator |
| ClusterMap.JoinOfSplit | zms-portal/src/main/webapp-src/src/views/service/instance/config.vue:200-201 | Joining undoes splitting, for every text |
| ClusterMap.AcceptedTextIsAFunction | zms-portal/src/main/webapp-src/src/views/service/instance/config.vue:316-341 | For names that can be written, the form accepts the rows exactly when the saved text, read back, gives each origin once and a target to each |
| ClusterMap.SavedTable | zms-portal/src/main/webapp-src/src/views/service/instance/config.vue:280-341 | What an accepted form saves is read back as a table from exactly the origins to their targets |
| ClusterMap.EmptyMapIsAccepted | zms-portal/src/main/webapp-src/src/views/service/instance/config.vue:316-341 | A map whose rows are all deleted is accepted, since the test meant to refuse it compares a list with 0; read back, it is one row that would be refused |
| ClusterMap.DeleteIsRemoval | zms-portal/src/main/webapp-src/src/views/service/instance/config.vue:210-212 | Marking a row deleted by its place removes exactly that row from what the user sees |
| ClusterMap.ConfigPage.LoadClusterMap | zms-portal/src/main/webapp-src/src/views/service/instance/config.vue:194-209 | Replaces the rows by those read from the saved text; without a text they stay |
| ClusterMap.ConfigPage.RemoveClusterMap | zms-portal/src/main/webapp-src/src/views/service/instance/config.vue:210-212 | Marks one row deleted; the visible list loses exactly that row |
| ClusterMap.ConfigPage.AddClusterMap | zms-portal/src/main/webapp-src/src/views/service/instance/config.vue:213-215 | Adds a row without names at the end |
| ClusterMap.ConfigPage.RadioChange | zms-portal/src/main/webapp-src/src/views/service/instance/config.vue:216-225 | Clears all origins and nothing else |
| ClusterMap.ConfigPage.Save | zms-portal/src/main/webapp-src/src/views/service/instance/config.vue:280-291 | Builds the text of the live rows with a leading comma, which it drops |
| ClusterMap.ConfigPage.ExamineRows | zms-portal/src/main/webapp-src/src/views/service/instance/config.vue:327-334 | The loop of the check: one answer for each incomplete row, and the set of the origins |
| ClusterMap.ConfigPage.CheckClusterMap | zms-portal/src/main/webapp-src/src/views/service/instance/config.vue:316-341 | Never answers with an error exactly when all live rows are complete and their origins distinct; there is one error for each incomplete row, and the last answer tells whether an origin is repeated |

## Left out

- Extend.ExtendDeep: an object of the target that the sources enter on two paths, where the result depends on the order of the keys; a source with a cycle, where the recursion does not end, or one that holds an object of the target that is merged into, such as the target itself.
- RouteMenus.RouteMenu.FillPerms: stated for the role graphs on which the recursion ends; that it ends on no others is FillTerminatesIffAcyclic.
- RouteMenus.RouteMenu.SetPermissions: stated for a fresh instance, as the store calls it once; a second call would append to rows and permissions.
- RouteMenus.PageDetail: an index beyond the depth, where the recursion never ends (PageDetailEndsExactly); the registration of the Vue component.
- RouteMenus.CopyForest: the copy of routes is made directly on route objects, not through the generic object graph and its cache; what it promises is the isomorphism that DeepCopy proves, for forests in which no route object occurs twice.
- ValueEquality.EqualExactly: cyclic values, on which the comparison need not end.
- ChunkRuns.MainRunsExactlyWhenComplete: for entry modules that no other module requires and that one entry names, as the build makes them. Of runs in which a module is missing MainNeverRunsEarly and NothingLeftReady say what remains.
- ChunkRuns.ThrowsExactlyWhenUnsupported: payloads that register a module again with other requirements.
- ProcessPolling.EachReportedOnce: one list of processes per component, each listed once, and polls that do not overlap; the exact condition is EachTakenOnceExactly.
- ChartScheduler.RequestsFollowTheList: one session, from the moment that the brokers are known. A later session clears its fields before it asks for the brokers; in that window the button for more is there already, and a click would start a batch before the first one.
- The dispatch of extend on its arguments: a boolean or non-object target, a single argument, function or string sources.
- JavaScript objects other than plain objects and arrays: prototypes, inherited keys, own constructor keys, dates, sparse arrays; regular expressions and functions are leaves.
- The runtime's style sheets, script addresses, nonces, module exports, and the hook to an earlier loader; factories that throw by themselves, require conditionally, or request chunks while they run.
- Debounce: a clock that goes back, a wrapped function that calls the debounced one, and the value returned.
- Process polling: the interval between ticks, the loading text, other failures of the interval timers.
- Tabs: frames, the shadow of the tab bar, and parameters that are not strings, whose JSON text can agree without the values being equal.
- Charts: brokers, time ranges and chart data; metric names with commas, which the watcher's joined text could confuse; the second scheduler for metrics that are not of the JVM, whose guard is weaker.
- The cluster map's selection boxes, the other kinds of configuration values, and the request that saves them.
- The REST wrappers, cookies, storage, views, forms, themes, charts' options and formatting helpers of the portal: no logic beyond single calls.
