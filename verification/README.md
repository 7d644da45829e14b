# Kalisko

Kalisko is a plug-in framework in C: a module manager that loads and unloads
shared libraries by reference counting, a timer queue, and a large set of
modules. This project models the parts of it that carry state and algorithms
worth a proof, and proves what they keep and compute.

* **Module manager** (`Graphs`, `RefCounts`, `Libraries`, `ModuleTable`,
  `ForcedUnload`, `ModuleLoading`, `ModuleManager`, `ModuleAnalyzer`). The class `Manager`
  holds the table of modules with their dependency and reverse dependency
  tables and counts, and has the recursive loading with roll-back, the
  cascading unload, the runtime edges, the forced unload and the shutdown. Its
  ghost fields are the graph of the loaded modules, the references held from
  outside that graph (by the core, by modules being loaded, by modules just
  taken out of the table) and the calls made to initializers and finalizers.
  Unloading is proved to leave exactly what a tracing collector would leave;
  from the uniqueness of that graph follows that a failed load restores the
  state before it. `ForcedUnload` says what a forced unload does for every
  order in which the hash tables may list the dependents.
* **Level-of-detail terrain** (`Quadtree`, `LodTiles`, `LodFringe`,
  `LodMap`, `ImagePyramid`, `Heightmap`, `LodQuadrants`). The selection of
  quadtree nodes, the life cycle of tiles shared with loading threads, the nodes
  loaded ahead, the pyramid of image patches that is never stored, and the index
  buffers of the height map.
* **Erosion** (`Grids`, `ThermalErosion`, `HydraulicErosion`,
  `HydraulicFlow`, `HydraulicCapacity`, `HydraulicSurvival`, `HydraulicWitness`,
  `HydraulicSymmetry`, `HydraulicSmall`). In-place passes over a grid of reals,
  against functions on sequences: what one cell gives to those around it and what
  is left behind, conservation laws, and when the assertions on the results hold.
* **Timers, keepalive, throttling** (`Timers`, `Keepalive`, `IrcThrottle`).
* **Events** (`Events`). The listener registry and the module that mirrors the
  number of global log listeners.
* **IRC parser** (`IrcParser`), against the grammar in section 2.3.1 of
  RFC 1459.

What changes state in place is a class or a method over an array; its contract
equates the new state with a function of the old one, and the lemmas are about
that function. Where the code does less than its documentation says, the model
follows the code, and a lemma or method says when the promise holds: exactly
when, but for the sizes of pictures named under `ErodeHydraulic` in the last
section.

* A module may be named as its own runtime dependency; the table then contains
  a cycle (`AddModuleRuntimeDependency`).
* A forced unload can fail although everything goes: it copies the list of
  dependents before it unloads the first of them. Whether it succeeds in every
  order depends on which requested modules are above which dependents
  (`ForceExactly`); a tree of dependents always succeeds (`TreeForces`), a
  diamond with only its top requested never does (`DiamondFails`,
  `DiamondRun`).
* Version numbers, like priorities, are compared by a difference of ints that
  can wrap (`CompareExactly`, `CompareWraps`), so the version of a declared
  dependency can lie outside the range that was checked (`InRangeExactly`).
* A negative talus threshold makes thermal erosion leave [0,1]
  (`ThresholdExactly`). Hydraulic erosion can leave [0,1] as well, and then the
  assertion on the values written back ends the program: one step never leads
  there, two steps can (`StepsExactly`), on every grid of two columns or two rows
  with at least four of the other (`NarrowExactly`, `WideExactly`), but not on
  two by two (`SquareSurvives`); with three of the other, three steps do
  (`TrenchFails`, `SmallFails`). A grid of one row or column never changes
  (`FlatSettles`), and a picture with enough distance from 0 and 1 is safe
  (`MarginSuffices`).
* A patch without positive values reports the smallest positive float as its
  maximum (`UpperLimitExactly`).
* With a base level of 0 a tile is a single cell, which the height map counts to
  its top left quadrant, so that its draw mode cannot draw it in part
  (`MatchesExactly`).
* The sleep time until the next timer is computed in a 32-bit int
  (`SleepExactly`, `OverdueExactly`), and configured timeouts are ints of
  microseconds, too (`TimeoutExactly`). A key that the probe pushed past its
  second can hide an earlier time, which is slept past then (`HiddenEntry`,
  `NoneHiddenExactly`).
* A notification of the keepalive plugin ends if the interval and the reconnect
  time are positive as ints of microseconds (`Keepalive.NotifyTimerCallbacks`);
  whenever one of them is not, be it 0 or a number of seconds that wraps to a
  negative int, such as 2148, it need not end (`NeedNotEnd`).
* The texts of two different PINGs can be equal, exactly when the seconds of one
  extend those of the other (`SameTextExactly`), so only if they differ tenfold
  (`MistakenTenfold`).
* Priorities are compared by an int difference that can wrap, so a listener
  queue is not always sorted; which sets of priorities keep all queues sorted in
  every run is `RunsSortedExactly`.
* GLib strips other characters from the ends of a string than the string
  utilities squeeze: parameters are the fields of their text unless it starts or
  ends with a vertical tab (`ParametersAreFields`). A parameter of an IRC message
  that contains whitespace other than a space, which the grammar allows, is taken
  apart (`ParserInvertsExactly`, `OtherWhitespace`), and a mask with a host but
  no user asks for a negative amount of memory (`ParseIrcUserMask`).

Wrapped 32-bit values are those of two's complement. Floating-point numbers
are reals.

## Model

| member | source | states |
|---|---|---|
| Graphs.AddEdgeAcyclic | src/module.c:431-450 | An edge added to an acyclic graph keeps it acyclic if and only if its ends differ and its target does not reach its source |
| Graphs.NewNodeAcyclic | src/module.c:722-758 | A node that nothing points to can be added with any edges into the graph without closing a cycle |
| RefCounts.AddHolderValid | src/module.c:592-766 | Counting a reference keeps "rdeps is the inverse of dependencies, rc is the positive number of holders, no cycle" if and only if the holder did not hold it already |
| RefCounts.DropHolderValid | src/module.c:781-788 | Giving back one of several references keeps that invariant |
| RefCounts.LastHolder | src/module.c:789-797 | When the count reaches zero, nothing in the table depends on the module and nothing else holds it |
| RefCounts.WithoutValid | src/module.c:787-840 | Taking such a module out of the table keeps the invariant, with its own references now held from outside the table |
| RefCounts.WithValid | src/module.c:758-766 | A module that has finished loading turns the references it held into edges of the graph, with the invariant kept |
| RefCounts.AddEdgeValid | src/module.c:362-395 | A runtime edge keeps the invariant if and only if its ends differ and it closes no cycle |
| RefCounts.AllLive | src/module.c:778-840 | Every module in the table is reached from something outside it, between operations from the core |
| RefCounts.CollectedExactly | src/module.c:778-840 | Any smaller graph with the invariant for given outside references is the part of the old one those references reach, counts included: reference counting leaves what tracing would |
| RefCounts.NothingHeld | src/module.c:84-90 | With no reference from outside the table is empty |
| Versions.CompareExactly | src/version.c:49-64 | The comparison agrees with the lexicographic order of major, minor and patch if and only if the first fields that differ are apart by an int |
| Versions.CompareIsLexicographic | src/version.c:49-64 | Without negative fields it is that order, and transitive |
| Versions.CompareWraps | src/version.c:49-64 | With a negative field a newer version can compare as older |
| Libraries.InRangeExactly | src/module.c:565-590 | The declared version of a dependency of a loaded module is not below the library's compatible version, and not above its version, in lexicographic order, if and only if the fields that decide are apart by an int |
| Libraries.AcceptedExactly | src/module.c:570-590 | With deciding fields apart by an int a version is accepted if and only if it is not below the compatible version and not above the library's own, in lexicographic order, and any is where none is asked for |
| Libraries.NotNegativeSpaced | src/version.c:49-64 | Without negative fields all declared versions can be compared |
| Libraries.OlderAccepted | src/modules/event/event.c:35-36 | Version 0.2.1 is accepted of a library at 0.4.2 that is compatible down to 0.1.1 |
| Libraries.LoadableExactly | src/module.c:561-769 | With versions that can be compared a module is loadable if and only if every library of its closure is there, with its functions and a working initializer, no cycle is declared, nothing in it is under way, and every version asked for lies in its range |
| Libraries.LoadableDependency | src/module.c:565-590 | If a module can be loaded, so can each of its declared dependencies, before or after others of them are loaded |
| Libraries.LoadedIsLoadable | src/module.c:561-769 | Whatever has been loaded met the whole condition: libraries usable, versions in range, initializers successful, no cyclic declaration, nothing under way; and its closure is all loaded |
| Traces.InitializedIsFinalized | src/module.c:752-805 | In an orderly run after which nothing is up, each successful initializer is followed by the module's finalizer before it is initialized again |
| ModuleLoading.RolledBack | src/module.c:728-755 | Giving up a load restores the table and the graph from before it, whatever had been loaded meanwhile |
| ModuleManager.Manager.UnneedModule | src/module.c:778-840 | Exactly the one reference is gone; if it was the last one, the module and whatever nothing holds any more leave the table, finalizers in order, and the recursion ends |
| ModuleManager.Manager.NeedModule | src/module.c:561-769 | Succeeds if and only if the declared closure can be loaded, which with comparable versions is told in lexicographic order without the comparison of the code: then every version in range is accepted and every other refused; exactly the missing part was added; after a refusal table, counts and edges are as before. Ends even for cyclic declarations |
| ModuleManager.Manager.LoadModule | src/module.c:594-769 | The same for a module that is not in the table, with every way out after a failure rolled back |
| ModuleManager.Manager.RequestModule | src/module.c:279-294 | A request succeeds if and only if the module is new to the core and loadable, with versions judged in lexicographic order as in NeedModule; it adds exactly the closure, with exactly the declared edges, or nothing at all |
| ModuleManager.Manager.RevokeModule | src/module.c:296-322 | Succeeds if and only if the core holds the module; what stays is exactly what the core's other requests reach |
| ModuleManager.Manager.CheckModuleDependency | src/module.c:431-450 | Answers reachability over the current edges, and ends |
| ModuleManager.Manager.AddModuleRuntimeDependency | src/module.c:362-395 | The exact result, both tables and the count; the invariant survives if and only if a loaded module was not linked to itself |
| ForcedUnloads.ForceHeld | src/module.c:324-360 | A success takes from the core exactly what is at or above the target |
| ForcedUnloads.ForceExactly | src/module.c:324-360 | A forced unload succeeds for every order of the hash tables if and only if the module is loaded and, for every chain of dependents up from it and every requested module at or above its end, some requested module is at or above that end, too, which is above no other dependent at the last step of the chain, and at earlier steps only above those the first one is above |
| ForcedUnloads.TreeForces | src/module.c:324-360 | Where nothing reaches two different dependents of one module at or above the target, every order succeeds: chains, forks and trees |
| ForcedUnloads.DiamondFails | src/module.c:339-349 | A diamond with only its top requested fails in every order, with nothing held any more |
| ForcedUnloads.DiamondSucceeds | src/module.c:339-349 | The same diamond with both sides requested as well succeeds in every order |
| ForcedUnloads.ForceSub | src/module.c:324-360 | In the part of the graph that is still loaded a forced unload runs as in the whole of it |
| ModuleManager.Manager.ForceUnloadModule | src/module.c:324-360 | Ends; result and requested modules afterwards are those of the specification for the given order of the hash tables; on success neither the module nor anything that depended on it is in the table and no other request is lost; in any case the invariant holds |
| ModuleManager.UnloadDiamond | src/module.c:339-349 | On the manager itself: the diamond is unloaded completely and the call returns false |
| ModuleManager.DiamondRun | src/module.c:279-349 | A new manager gets there: requesting the top of four libraries that declare a diamond succeeds, and the forced unload of the bottom empties the table and returns false, in every order |
| ModuleManager.Manager.FreeModules | src/module.c:84-90 | From any state between operations the table becomes empty and both assertions hold |
| ModuleManager.Life | src/module.c:64-103 | In every run of operations from start to shutdown all initializers run with their dependencies up and all finalizers with theirs still up and no dependent, and at the end nothing is up |
| ModuleAnalyzer.TransitiveDeps | util/modules/modules.py:57-62 | Finds exactly the declared closure if it is complete and acyclic and the recursion depth allows it, and otherwise says why not |
| ModuleAnalyzer.ExpandRuntimeDeps | util/modules/modules.py:36-42 | Finds exactly the union of the closures of the given modules |
| ModuleAnalyzer.LoadableIsSound | util/modules/modules.py:57-62 | What the manager can load has a closure the analyzer accepts |
| LodSelection.TilesExactly | src/modules/lodmap/lodmap.c:301-354 | The quadrants drawn by the selected nodes hold every point of the root square exactly once and no point outside |
| LodSelection.SelectedSound | src/modules/lodmap/lodmap.c:308-339 | A selected node is in the tree, in range unless it is the root, and has a quadrant to draw |
| LodSelection.SelectedUpwards | src/modules/lodmap/lodmap.c:329-350 | In the selection a node comes after all nodes below it, and so only once |
| LodFringe.SurroundedAt | src/modules/lodmap/lodmap.c:314-334 | What Update promises about the edge of the viewing range, for a single node: a child out of range of a node reached through nodes in range has its data there or on its way, and none of its own children is on the screen |
| LodFringe.SurroundedShown | src/modules/lodmap/lodmap.c:488-503 | Bringing a selected node and its ancestors to the screen touches nothing beyond that edge |
| LodTiles.Toggle | src/modules/lodmap/lodmap.c:588-607 | Removing a child's bit changes that quadrant of the draw mode and no other |
| LodTiles.DrawnExactly | src/modules/lodmap/lodmap.c:245-252 | What is drawn with the stored draw modes tiles the root square |
| LodMap.OpenGLLodMap.LoadTile | src/modules/lodmap/lodmap.c:254-276 | One pending load turns its tile from LOADING to READY with images, and nothing else changes |
| LodMap.OpenGLLodMap.SelectNodes | src/modules/lodmap/lodmap.c:301-354 | Returns the selection, with the draw modes stored, the tile invariant kept, everything up to the node on its way, whatever lies just out of range preloaded, and only the loading threads active elsewhere; the fallback is not reached |
| LodMap.OpenGLLodMap.PreloadNode | src/modules/lodmap/lodmap.c:363-405 | An active node keeps its images and loses its model, a ready one stays, and one without data gets exactly one load; of its children those that were loaded are down to their meta data and nothing is fetched for the others; no status assertion fails |
| LodMap.OpenGLLodMap.ActivateTile | src/modules/lodmap/lodmap.c:448-537 | A ready tile becomes active after its parent, active tiles stay, only the tile and its ancestors change, but for loads that finish, and no status assertion fails |
| LodMap.OpenGLLodMap.DeactivateTile | src/modules/lodmap/lodmap.c:544-564 | The model goes, the images stay |
| LodMap.OpenGLLodMap.UnloadTile | src/modules/lodmap/lodmap.c:571-580 | The images go; never asked for the root |
| LodMap.OpenGLLodMap.IntersectsSphere | src/modules/lodmap/intersect.cpp:45-61 | A tile without data is loaded on the spot before it is measured |
| LodMap.OpenGLLodMap.Update | src/modules/lodmap/lodmap.c:197-242 | Each update ends with every selected tile active and visible, the screen tiled exactly and the nodes around it preloaded; the tree grows only if asked to, exactly to the first root that covers the point |
| LodMap.OpenGLLodMap.ExpandQuadtree | src/modules/quadtree/quadtree.c:82-145 | A tree that covers the point stays as it is. Otherwise it grows and ends at the first root that covers the point: the part of the new root with the old one in it does not, and each side goes down by the scale of each level only as long as the coordinate lies below it; all nodes keep place and tile |
| LodMap.OpenGLLodMap.FillTreeNodes | src/modules/quadtree/quadtree.c:211-239 | All missing nodes below a node are created, the others kept |
| ImagePyramid.GetImagePatch | src/modules/lodmap/imagesource.c:282-379 | The patch shows the global pyramid at its place, whose levels are those of BaseLevel, NinthOfNine and CopyIsImage; the reported limits enclose it and are met or still at their start, and all reads are in bounds |
| ImagePyramid.Average | src/modules/lodmap/imagesource.c:331-338 | The nine pixels averaged are those the pyramid averages |
| ImagePyramid.UpperLimitExactly | src/modules/lodmap/imagesource.c:287-288 | The reported maximum is positive, and a value of the patch if and only if some value reaches the smallest positive float |
| ImagePyramid.FloatLimits | src/modules/lodmap/imagesource.c:287-288 | The limits start at 2^128 less 2^104 and at 2^-126 |
| ImagePyramid.BaseLevel | src/modules/lodmap/imagesource.c:292-314 | Level 0 is the image, and zero everywhere outside it |
| ImagePyramid.NinthOfNine | src/modules/lodmap/imagesource.c:316-338 | Nine times a value of an averaged level is the sum of the nine values of the level below, as far apart as the pixels of that level |
| ImagePyramid.AverageBounded | src/modules/lodmap/imagesource.c:316-338 | An averaged value lies between any bounds that hold for the base pixels less than 2^level away, whether or not zero lies between them; so a constant stays what it is |
| ImagePyramid.ImageSource.Query | src/modules/lodmap/imagesource.c:235-266 | A height tile is a copy of the heights at every level, with 2^baseLevel + 1 pixels a side; tiles of normals and of the texture average theirs, with their own detail level; each from its own place on |
| ImagePyramid.ImageSource.TileHeights | src/modules/lodmap/imagesource.c:244-257 | Each pixel of a height tile is the pixel of the image that its place and level ask for, or zero outside |
| ImagePyramid.ImageSource.NoSeamX | src/modules/lodmap/imagesource.c:257 | Tiles side by side agree on their common column |
| ImagePyramid.ImageSource.NoSeamY | src/modules/lodmap/imagesource.c:257 | Tiles one above the other agree on their common row |
| ImagePyramid.CopyIsImage | src/modules/lodmap/imagesource.c:353-376 | A pyramid of copied levels is the image at every level |
| ImagePyramid.HeightsAgree | src/modules/lodmap/imagesource.c:353-376 | A parent tile has the heights of its child wherever they share a point |
| ImagePyramid.PyramidBounded | src/modules/lodmap/imagesource.c:318-352 | No level leaves the range of the image and the zeros around it |
| Grids.StencilAscending | src/modules/erosion/erosion.c:81-86 | The cells visited around a cell are distinct, in the grid and not the cell itself |
| Grids.StencilExactly | src/modules/erosion/erosion.c:80-83 | The cells visited around a cell are exactly its up to eight neighbours, unless a loop bound wraps around; then there are none |
| Grids.LoopBounds | src/modules/erosion/erosion.c:80-81 | The loop bounds as unsigned 32-bit numbers: one less than 0 is the largest, two more than the two largest start again at 0 |
| Grids.BorderStencil | src/modules/erosion/erosion.c:81-86 | In row 0 and column 0 the unsigned bound leaves nothing to visit |
| ThermalErosion.ErodeCellConserves | src/modules/erosion/erosion.c:73-117 | One cell update conserves the total height |
| ThermalErosion.ErodeCellExactly | src/modules/erosion/erosion.c:73-117 | For every threshold a cell slides if the drops of more than it add up to more than zero, which for a threshold that is not negative means if there is one: it loses half of what its greatest drop exceeds the threshold by, each neighbour that much lower gains in proportion to its drop, nothing else changes; otherwise nothing does |
| ThermalErosion.SlidOnce | src/modules/erosion/erosion.c:73-117 | For a threshold that is not negative this leaves one result only |
| ThermalErosion.PeakSlides | src/modules/erosion/erosion.c:95-116 | Heights 0, 0, 0, 1 with threshold 0 become 1/6, 1/6, 1/6, 1/2 |
| ThermalErosion.SweptRows | src/modules/erosion/erosion.c:133-139 | One step takes all cells in the order of their indices, each from what the ones before have left |
| ThermalErosion.ErodeCellBounded | src/modules/erosion/erosion.c:73-117 | For a threshold that is not negative, every bound on the touched cells still holds, and no other cell changes |
| ThermalErosion.ErodeSafe | src/modules/erosion/erosion.c:131-138 | Any number of steps conserves the total and, for such a threshold, every bound |
| ThermalErosion.ThresholdExactly | src/modules/erosion/erosion.c:131-146 | All pictures in [0,1] stay there if and only if the threshold is not negative |
| ThermalErosion.ErodeThermalCell | src/modules/erosion/erosion.c:73-117 | The two loops over the cells around compute the cell update in place; for a threshold that is not negative the picture changes if and only if some neighbour is more than the threshold lower, and then as in ErodeCellExactly |
| ThermalErosion.ErodeThermal | src/modules/erosion/erosion.c:119-152 | The picture becomes the eroded one, step by step as in SweptRows and ErodeCellExactly, with the same total, unless the assertion fails, which it does not for a picture in [0,1] and a threshold that is not negative |
| HydraulicErosion.FlowCellSafe | src/modules/erosion/erosion.c:157-217 | Flow conserves water and sediment, makes neither negative, and lets only the source lose water |
| HydraulicErosion.FlowAtSafe | src/modules/erosion/erosion.c:157-217 | In the row-by-row sweep every cell still to flow has at least the rain of this step, so its share of sediment is defined |
| HydraulicFlow.FlowAtExactly | src/modules/erosion/erosion.c:157-217 | Without a lower neighbour nothing flows. Otherwise the cell gives all its water, or as much as its level is above the mean level of the lower neighbours if that is less, to each in proportion to how much lower it is, with the same part of its sediment; nothing else changes |
| HydraulicFlow.FlowCellExactly | src/modules/erosion/erosion.c:157-217 | The same for any list of cells around |
| HydraulicFlow.SweptRows | src/modules/erosion/erosion.c:270-275 | Water flows from all cells in the order of their indices, each from what the ones before have left |
| HydraulicCapacity.StepExactly | src/modules/erosion/erosion.c:251-295 | One step adds 0.01 to all water, dissolves a hundredth of the water from the ground, lets the water flow, halves it, and leaves what is more than 0.3 times the remaining water behind |
| HydraulicCapacity.DepositsExactly | src/modules/erosion/erosion.c:284-291 | A step leaves sediment in a cell if and only if the flow brought more than 0.3 times the water that remains |
| HydraulicCapacity.RunCarried | src/modules/erosion/erosion.c:231-292 | After every step no water carries more sediment than 0.3 times itself |
| HydraulicCapacity.DepositReached | src/modules/erosion/erosion.c:251-295 | In every picture that has a cell, some cell is left sediment within the first 16 steps |
| HydraulicCapacity.FlatDeposits | src/modules/erosion/erosion.c:251-295 | 15 steps are not enough: in one row or one column they leave none |
| HydraulicCapacity.LastSediment | src/modules/erosion/erosion.c:297-306 | At the end each cell gains its sediment, not more than 0.3 times its last water |
| HydraulicErosion.SteppedConserves | src/modules/erosion/erosion.c:251-297 | Height plus sediment is constant through rain, solution, flow and evaporation |
| HydraulicErosion.HydraulicConserves | src/modules/erosion/erosion.c:251-306 | The final heights add up to the initial ones, for any size and number of steps |
| HydraulicErosion.Landscape.WaterFlowCell | src/modules/erosion/erosion.c:157-217 | The two loops compute the flow from a cell in place |
| HydraulicSurvival.FlatSettles | src/modules/erosion/erosion.c:167-184 | A picture of one row or one column settles unchanged |
| HydraulicSurvival.OneStep | src/modules/erosion/erosion.c:251-316 | One step keeps every picture in [0,1] |
| HydraulicSurvival.MarginSuffices | src/modules/erosion/erosion.c:251-316 | In any number of steps no height changes by more than 0.0002 times cells times steps, so a picture that keeps that distance from 0 and 1 stays in [0,1] |
| HydraulicWitness.StepsExactly | src/modules/erosion/erosion.c:251-316 | All pictures in [0,1] of all sizes stay there for up to n steps if and only if n is at most 1 |
| HydraulicWitness.NarrowExactly | src/modules/erosion/erosion.c:251-316 | The same for each size of two columns and at least four rows on its own |
| HydraulicSymmetry.FlippedErodes | src/modules/erosion/erosion.c:251-316 | A picture of two rows erodes in any number of steps as the same picture turned to two columns |
| HydraulicSymmetry.SidesAlike | src/modules/erosion/erosion.c:251-316 | All pictures of two rows survive as many steps as those of two columns |
| HydraulicSymmetry.WideExactly | src/modules/erosion/erosion.c:251-316 | With two rows and at least four columns all pictures survive up to n steps if and only if n is at most 1 |
| HydraulicSmall.SquareSurvives | src/modules/erosion/erosion.c:251-316 | With two columns and two rows all pictures survive two steps |
| HydraulicSmall.SmallFails | src/modules/erosion/erosion.c:251-316 | With two and three, in either direction, not all survive three |
| HydraulicWitness.TrenchFails | src/modules/erosion/erosion.c:312 | With two columns and three rows of heights .05, .05, .02, .02, 1, 0, three steps give a value of -7783/700000000 |
| HydraulicSurvival.ErodeHydraulic | src/modules/erosion/erosion.c:219-317 | The picture becomes the settled one, step by step as in StepExactly, SweptRows and FlowAtExactly, with the same total, unless the assertion fails; it holds for a picture in [0,1] with at most one step, row or column, and for one that keeps the margin |
| Times.SleepExactly | src/timer.c:122-132 | Nobody sleeps past a timer to come, and the sleep is exact if and only if it fits an int |
| Times.OverdueExactly | src/timer.c:106-132 | For a time that has passed, such as the zero time of an empty queue, what is slept is what is left of the range of an int after the delay: nothing if the delay, wrapped, is at most half of it |
| Times.TimeoutExactly | src/modules/ircpp_keepalive/ircpp_keepalive.c:171-218 | A number of seconds is scheduled as configured if and only if it is below 2148, and otherwise apart from that by a multiple of 2^32 microseconds |
| Timers.FirstFreeIsUnique | src/timer.c:69-71 | The least free microsecond at or after a request is one time only |
| Timers.TimerQueue.AddTimer | src/timer.c:60-81 | The probe ends at the least free microsecond of that second; the entry is added there and nothing else changes |
| Timers.TimerQueue.GetCurrentSleepTime | src/timer.c:122-132 | The sleep ends with the earliest entry, exactly if the distance is an int and earlier otherwise; with less than a second of microseconds in every key and none overdue, no entry is slept past; an overdue entry and an empty queue leave what is left of the range |
| Timers.NoneHiddenExactly | src/timer.c:122-132 | With the earliest key at most the largest int ahead, no entry is slept past if and only if that key is the first one in microseconds as well |
| Timers.HiddenEntry | src/timer.c:60-132 | Three timers for one microsecond, of which the first two are deleted, leave a key beyond its second, and the sleep goes past the timer of the next second |
| Timers.TimerQueue.TakeReady | src/timer.c:139-157 | What is taken is the earliest entry, if it is ready; otherwise nothing is ready |
| Timers.TimerQueue.NotifyTimerCallbacks | src/timer.c:134-162 | Entries fire in rising order, all due at the snapshot and each once; none is forgotten unless a callback removed it; it ends when callbacks add only later entries, and leaves only later ones |
| Timers.TimerQueue.RemoveModuleTimers | src/timer.c:187-211 | Exactly the entries of the module go, and their number is returned |
| Pings.OneEnd | src/modules/ircpp_keepalive/ircpp_keepalive.c:198-247 | In every orderly log a PING is open or the next step of its proxy ends it, so at most one PING is outstanding |
| Pings.SameTextExactly | src/modules/ircpp_keepalive/ircpp_keepalive.c:139-141 | Deadlines in two different seconds can have one text if and only if the decimal of one continues that of the other with one to five digits, the first not a zero |
| Pings.MistakenTenfold | src/modules/ircpp_keepalive/ircpp_keepalive.c:139-141 | Different deadlines with one text are apart by a factor of ten |
| Pings.TextNotInjective | src/modules/ircpp_keepalive/ircpp_keepalive.c:139-141 | Different deadlines can have one text |
| Keepalives.AgreeEnded | src/modules/ircpp_keepalive/ircpp_keepalive.c:296-309 | When the timeout of a PING leaves the queue, it was the one its table names, and tables, queue and log agree afterwards |
| Keepalives.Keepalive.ClearKeepaliveTimers | src/modules/ircpp_keepalive/ircpp_keepalive.c:296-324 | Never fails while the queue is up; of all entries exactly the challenge and the timeout of the proxy leave the queue |
| Keepalives.Keepalive.RescheduleKeepaliveTimer | src/modules/ircpp_keepalive/ircpp_keepalive.c:332-356 | The timers of the proxy give way to one new challenge at the first free time after its interval; every other entry stays |
| Keepalives.Keepalive.EnableIrcProxyPlugin | src/modules/ircpp_keepalive/ircpp_keepalive.c:256-272 | A newly enabled proxy gets one challenge if it is connected and nothing otherwise, and has no open PING |
| Keepalives.Keepalive.BouncerReattached | src/modules/ircpp_keepalive/ircpp_keepalive.c:117-123 | An enabled proxy is rescheduled, with an open PING given up; for another nothing changes |
| Keepalives.Keepalive.RemoteReconnect | src/modules/ircpp_keepalive/ircpp_keepalive.c:152-163 | The same when the server has registered the connection |
| Keepalives.Keepalive.RemoteDisconnect | src/modules/ircpp_keepalive/ircpp_keepalive.c:165-176 | A lost connection of an enabled proxy adds one reconnect timer and leaves the others |
| Keepalives.Keepalive.DisableIrcProxyPlugin | src/modules/ircpp_keepalive/ircpp_keepalive.c:280-288 | Of all entries exactly the challenge and the timeout of the proxy leave the queue |
| Keepalives.Keepalive.RemoteLine | src/modules/ircpp_keepalive/ircpp_keepalive.c:125-150 | A PONG with the text of the open PING ends it; any other line changes nothing; a PONG for another deadline can end it only if the seconds are apart by a factor of ten |
| Keepalives.Keepalive.Challenge | src/modules/ircpp_keepalive/ircpp_keepalive.c:198-234 | A PING is sent if and only if the proxy is connected and none is open, with the deadline its timeout has; the challenge comes back if and only if the proxy is connected |
| Keepalives.Keepalive.ChallengeTimeout | src/modules/ircpp_keepalive/ircpp_keepalive.c:236-247 | An unanswered PING costs the proxy its connection |
| Keepalives.Life | src/modules/ircpp_keepalive/ircpp_keepalive.c:86-356 | After any sequence of timer firings, lines, disconnects, registrations, reattachments, enablings and changes of configuration, tables and queue agree and every PING is open or has one end |
| Keepalives.Keepalive.NotifyTimerCallbacks | src/timer.c:134-162 | If interval and reconnect time are positive ints of microseconds, the notification ends; every PING that was open with a deadline up to the snapshot has timed out, exactly those proxies are disconnected, and only later deadlines are open |
| Keepalives.Keepalive.NotifyRounds | src/timer.c:134-162 | For all configured times: after any number of rounds the proxies disconnected are exactly those whose PING timed out and the other PINGs are open, and if that was the end, only later deadlines are open |
| Keepalives.NeedNotEnd | src/modules/ircpp_keepalive/ircpp_keepalive.c:183-234 | Whenever the interval or the reconnect time is not a positive int of microseconds, whatever the third number is, there is a run to a notification in which callbacks up to its snapshot fire for any number of rounds and something is still ready |
| IrcLines.PolledInOrder | src/modules/irc/irc.c:84-95 | A poll lets the throttle time catch up with the clock and writes the first lines of the buffer in order: the fewest whose cost, a 120th of a second for each character and three for the line, takes the throttle time ten seconds ahead, or all of them |
| IrcLines.Budget | src/modules/irc/irc.c:84-95 | What polls send between two times costs less than the time between, ten seconds and the last line |
| IrcRuns.StepConserves | src/modules/irc/irc.c:288-400 | Each operation accounts for every line: written, buffered or dropped |
| IrcRuns.RunConserves | src/modules/irc/irc.c:288-400 | In every run each line handed over was written, is buffered or was dropped, exactly once |
| IrcRuns.StepOrdered | src/modules/irc/irc.c:288-400 | What each operation does to the lines: ircSend puts one at the end of the buffer and ircSendFirst at its front, or out at once without throttling; polls and flushes write from the front; only giving up a buffer drops any |
| IrcRuns.RunInOrder | src/modules/irc/irc.c:84-375 | In every run that puts nothing first and drops nothing, the lines written and buffered are the messages in the order they were sent, each cut to 4095 characters |
| IrcRuns.RunBudget | src/modules/irc/irc.c:72-107 | In every run with a clock that does not go back, the sendings since throttling was enabled keep to the budget, in characters as well: per second 120, with 1200 and one line ahead |
| IrcThrottle.IrcConnection.Poll | src/modules/irc/irc.c:84-95 | The sending loop computes the poll of the connection |
| IrcThrottle.Irc.EnableIrcConnectionThrottle | src/modules/irc/irc.c:288-304 | A connection not throttled yet starts with an empty buffer at the end of the list; another is refused |
| IrcThrottle.Irc.DisableIrcConnectionThrottle | src/modules/irc/irc.c:306-326 | The buffer is written or dropped, and exactly this connection leaves the list |
| IrcThrottle.Irc.ListenerThrottlePoll | src/modules/irc/irc.c:72-107 | Every listed connection is polled, dead ones are taken off the list, no other changes |
| EventTables.AttachedQueues | src/modules/event/event.c:70-108 | Attaching changes the one queue and keeps the table without empty queues and subjects |
| EventTables.DetachedQueues | src/modules/event/event.c:110-149 | Detaching removes the first match from the one queue and whatever is empty then |
| EventTables.AttachThenDetach | src/modules/event/event.c:70-149 | Detaching a newly attached listener gives back the table |
| EventTables.InsertedExactly | src/modules/event/event.c:92-102 | A sorted queue stays sorted if and only if two differences of priorities fit an int; the newest of equals comes first, the lowest priority always at the front and the highest at the end |
| EventTables.AttachedSorted | src/modules/event/event.c:70-108 | Attaching keeps all queues of the table sorted if and only if the priority is comparable with those in its queue |
| EventTables.DetachedSorted | src/modules/event/event.c:110-149 | Detaching keeps all queues sorted |
| EventTables.RunsSortedExactly | src/modules/event/event.c:70-149 | All queues stay sorted in every run that attaches listeners with priorities of a given set only, if and only if the differences of those priorities are ints, as far as they are computed |
| EventTables.NamedPrioritiesSorted | src/modules/event/event.i:41-45 | In every run with the three named priorities all queues are sorted |
| EventTables.WrongOrder | src/modules/event/event.c:223-229 | A priority of 1 goes before the lowest one |
| EventRegistry.NotifiedCount | src/modules/log_event/log_event.c:70-96 | Notifying a queue counts once for a listener of the log module, and only for the log event |
| EventRegistry.LoadedFacts | src/modules/log_event/log_event.c:44-96 | While the log module is loaded, its count is the number of global listeners of "log", its handler is installed if and only if there are some, and it listens once to each of its two events |
| EventRegistry.PlacedDetachedOnce | src/modules/log_event/log_event.c:61-62 | An attached listener of the log module is found again and detached |
| EventRegistry.Registry.TriggerEvent | src/modules/event/event.c:151-189 | Exactly the listeners of the event are called, each with its own entry, the subject, the event and the argument, in queue order, which is rising priority when the priorities used so far are compatible; their number or -1 is returned |
| EventRegistry.Registry.AttachEventListenerWithPriority | src/modules/event/event.c:70-108 | The table is updated, all queues sorted as long as the priorities used are compatible, the listeners of the subject are told, and the log module's count is the number of global log listeners, with its handler installed if and only if there are some |
| EventRegistry.Registry.DetachEventListener | src/modules/event/event.c:110-149 | The same for detaching |
| EventRegistry.Registry.InitLogEvent | src/modules/log_event/log_event.c:44-57 | The two listeners are attached, and the count is right from the start, whatever is attached already |
| EventRegistry.Registry.FinalizeLogEvent | src/modules/log_event/log_event.c:59-68 | No listener and no handler of the log module stays behind |
| Texts.ParametersAreFields | src/modules/irc_parser/irc_parser.c:95-98 | Stripping, squeezing and splitting a text gives its longest parts without whitespace, for every text, if and only if what is stripped neither starts nor ends with a vertical tab; otherwise there is an empty part at that end |
| Texts.FieldsOfWords | src/modules/irc_parser/irc_parser.c:95-98 | Words without whitespace come back whatever the gaps between them |
| Texts.SqueezedGaps | src/modules/string_util/string_util.c:54-79 | Every text is its fields with gaps of whitespace around them, none empty between two fields, and squeezing makes each gap one space, at the ends as well |
| Texts.WhitespaceCodes | src/modules/string_util/string_util.c:54-79 | Whitespace are the characters 9 to 13 and 32, of which GLib does not strip 11 |
| IrcParser.StripDuplicateWhitespace | src/modules/string_util/string_util.c:54-79 | In place, every run of whitespace becomes one space |
| IrcParser.ParseIrcMessage | src/modules/irc_parser/irc_parser.c:50-124 | Parses as the specification function does, with the parameters split in a buffer |
| IrcParser.ParsedExactly | src/modules/irc_parser/irc_parser.c:50-124 | Every message, of the grammar or not: refused if and only if it starts with a colon and has no space; otherwise it is its prefix, blanks, its command up to the next space and the rest, whose parameters end and whose trailing part begins at the first space with a colon behind it |
| IrcParser.ParsedParts | src/modules/irc_parser/irc_parser.c:50-124 | Every message of the grammar is taken apart into its prefix, its command and its trailing part without the blanks GLib strips from its end |
| IrcParser.ParserInvertsExactly | src/modules/irc_parser/irc_parser.c:50-124 | The parser inverts the grammar, with any number of spaces, if and only if no parameter contains other whitespace |
| IrcParser.OtherWhitespace | src/modules/irc_parser/irc_parser.c:95-98 | A parameter with a tab comes back as two, one with a vertical tab at its start with an empty one before it |
| IrcParser.TrailingWhitespace | src/modules/irc_parser/irc_parser.c:112-121 | At the end of the trailing part a tab goes and a vertical tab stays |
| IrcParser.ParseIrcUserMask | src/modules/irc_parser/irc_parser.c:126-156 | The parts put together are the prefix again; it runs out of memory if and only if an at sign comes before any exclamation mark |
| IrcParser.MaskUnique | src/modules/irc_parser/irc_parser.c:126-156 | A text is the mask of one nick, user and host only |
| Heightmaps.OneQuadrant | src/modules/heightmap/heightmap.c:124-157 | Every grid cell is in exactly one quadrant, and nothing else is in any |
| Heightmaps.OneCell | src/modules/heightmap/heightmap.c:124-157 | Every slot of a quadrant's array belongs to exactly one cell |
| Heightmaps.EqualQuadrants | src/modules/heightmap/heightmap.c:61-71 | The quadrants of a square height map are equal if and only if its size is odd |
| Heightmaps.TrianglesCover | src/modules/heightmap/heightmap.c:350-363 | All indices are vertices; the two triangles of a cell, equally oriented, cover it and nothing else and share only its diagonal |
| Heightmaps.OpenGLHeightmap.Init | src/modules/heightmap/heightmap.c:105-168 | The four loops with a running index fill exactly the four arrays as allocated, and the vertices |
| Heightmaps.OpenGLHeightmap.Draw | src/modules/heightmap/heightmap.c:266-309 | A draw mode draws the tiles of exactly the cells in the quadrants it asks for |
| LodQuadrants.MatchesExactly | src/modules/heightmap/heightmap.c:124-157 | The cells of a quadrant of the height map lie in that quadrant of the node it is stretched over if and only if the tile has more than one cell a side |
| LodQuadrants.SameBits | src/modules/lodmap/lodmap.c:588-607 | The bits that stand for the quadrants of a node are those that ask for these quadrants of the height map |

## Left out

- ForceUnloadModule: the orders of the hash tables are a parameter, a list per module that contains every library; a key listed twice counts once.
- UnneedModule: the modules are values in the table under their names rather than heap objects, so pointers to freed structs are not captured.
- NeedModule: opening libraries, looking up meta functions and the search path are a record per library; initializers are a set of names that report success during an operation and do not call back into the manager; declared dependencies name a module once, and `AddHolderValid` says what a second mention would do. The check of the module's own name at src/module.c:644 has no effect and is not modelled.
- CompareIsLexicographic: the revision string plays no part in the comparison.
- TransitiveDeps: the interpreter's recursion limit is a depth parameter; reading the declarations out of source files is a map of libraries.
- SelectNodes: the range test is any predicate of the node that does not change while nodes are selected; heights read by it while a tile is being loaded are not modelled.
- Update: models, textures and uniforms are ownership bits of a tile; that an active tile has an active parent is not claimed, because preloading does not keep it. Reshaping the tree while loads are pending is left out.
- LoadTile: a load is one step, taken at any time between the steps of the main thread; mutexes and condition variables are not part of this model.
- GetImagePatch: the size of a patch is at least 1, as all callers ask for.
- ErodeThermal: one channel of the picture; the copy into further channels and the conversion to floats are left out, and so are the loops over columns inside the final copy.
- ErodeHydraulic: exactly how many steps all pictures survive is proved for one row or column, and for two of them with at least four of the other; with two by two more than two steps are left open, with two by three two steps, and with at least three rows and columns only the first step and the margin are promised. The passes that treat each cell on its own are one loop over all cells.
- NarrowExactly: the other side has fewer than 2^32 - 1 cells, below where an unsigned loop bound wraps around; the same holds of `WideExactly`.
- NotifyTimerCallbacks: with callbacks that add entries which are already due it need not end, so the callbacks in the model add only later ones.
- AddTimer: the key of the tree is the time itself, not a pointer to it.
- DisableIrcProxyPlugin: a reconnect timer may stay in the queue after the plugin is gone; the keepalive model needs the timer queue to be up.
- ReloadedConfig: the numbers of seconds are what the configuration holds.
- ListenerThrottlePoll: listeners of the send event do not send, and writing to the socket always takes the whole line.
- TriggerEvent: listeners of other modules are recorded, and do not attach or detach anything while they run.
- AttachEventListenerWithPriority: the lock and the thread safety of the registry, and the log messages sent when the handler changes, are left out.
- ParseIrcMessage: strings contain no null byte; memory for copies of a sensible size is always there.
- Init: normals and the textures of a height map are not modelled, nor a width or height of 0, nor sizes whose product exceeds an unsigned int.
- The division of the input stream into IRC lines, message buffers and the feed history.
- Sockets, the HTTP server, configuration files, scripting bridges, OpenGL, GTK+ and the windowing modules.
- The linear algebra wrappers, the store, option parsing and image helpers.
