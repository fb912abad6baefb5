# Dashboard filtering, linkage and colouring core of SimWrapper

This project models, in Dafny, the in-memory logic behind SimWrapper's
dashboard plugins, and proves what that logic promises.

**Interactive dashboard**
- The two filter managers:
  - The current one: AND across filters, OR within one, binned ranges and the tolerant value matcher.
  - The older one: strict set membership.
- The linkage manager: hover and selection sets, bulk toggling, the attribute pair and observer channels.
- Layer colouring: grouping layers by their linkage property, and primary, secondary or neutral roles.
- The first-fit track allocator for timeline swim lanes.
- The structure of the correlation statistics.
- The style manager's colour path resolver.
- The dashboard colour schemes.
- The plain and linked data-table managers.

**Commuter-requests plugin**
- The request filters.
- Time-bin parsing and generation.
- Mode colours.

**Commuter-clustering plugin**
- The time and cluster filters and the `HH:MM:SS` formatters.
- Colours and legends.
- The join of cluster centroids onto cluster boundaries.

How the model represents JavaScript:
- A data row is a map from column names to JavaScript scalars: `undefined`, `null`, booleans, numbers (integers or NaN) and strings. Missing keys read as `undefined`.
- Strict `===`, loose `==`, `Number(...)`, `parseInt` and `String(...)` are written out as functions over those scalars (modules `JsValues` and `JsText`).
- Objects whose fields the source updates in place are classes. Examples are the filter managers, the linkage manager, the layer-colouring cache, the linked table and the style manager.
- Observer and listener calls are recorded in a notification log kept by each class.
- Code that throws returns a `Result`.
- The floating-point statistics kernels are a `Kernels` parameter of uninterpreted functions.

## Model

| member | source | states |
|---|---|---|
| TrackAllocator.InsertByStart | src/plugins/interactive-dashboard/utils/trackAllocator.ts:63 | inserting into a start-sorted list keeps it sorted and adds exactly the one item |
| TrackAllocator.SortByStart | src/plugins/interactive-dashboard/utils/trackAllocator.ts:63 | the sorted copy is ordered by start time and is a permutation of the input |
| TrackAllocator.SortedPermutationUnique | src/plugins/interactive-dashboard/utils/trackAllocator.ts:63 | when no two items start together, the sorted copy is the only start-sorted arrangement of the items |
| TrackAllocator.FirstFit | src/plugins/interactive-dashboard/utils/trackAllocator.ts:74-81 | the chosen lane is the lowest one free at the item's start; every lower lane is still busy |
| TrackAllocator.Place | src/plugins/interactive-dashboard/utils/trackAllocator.ts:70-94 | one placement: the item takes the first lane that fits and that lane's end becomes the item's end, or a new lane ends at the item's end |
| TrackAllocator.Greedy | src/plugins/interactive-dashboard/utils/trackAllocator.ts:70-94 | every item gets a lane, every lane is one of those opened, and there are never more lanes than items |
| TrackAllocator.LastOn | src/plugins/interactive-dashboard/utils/trackAllocator.ts:70-94 | the last item placed on a lane, if any |
| TrackAllocator.PlaceKeepsLaneEnds | src/plugins/interactive-dashboard/utils/trackAllocator.ts:74-87 | after a placement, each lane's end time is still the end of the last item on it |
| TrackAllocator.PlaceKeepsNoOverlap | src/plugins/interactive-dashboard/utils/trackAllocator.ts:74-87 | a placement never makes two items on one lane overlap |
| TrackAllocator.GreedyInvariant | src/plugins/interactive-dashboard/utils/trackAllocator.ts:70-94 | over the sorted items, lane ends track the last item of each lane and items on one lane never overlap |
| TrackAllocator.Assign | src/plugins/interactive-dashboard/utils/trackAllocator.ts:89-93 | the first pass records one entry per id, each with a placeholder lane count of 0 |
| TrackAllocator.AssignAppend | src/plugins/interactive-dashboard/utils/trackAllocator.ts:89-93 | placing one more item sets (or overwrites) exactly that item's entry |
| TrackAllocator.AssignLookup | src/plugins/interactive-dashboard/utils/trackAllocator.ts:89-93 | with distinct ids, the entry of each item holds the lane it was placed on |
| TrackAllocator.IdsOfPermutation | src/plugins/interactive-dashboard/utils/trackAllocator.ts:63 | sorting does not change the set of ids |
| TrackAllocator.IdsCount | src/plugins/interactive-dashboard/utils/trackAllocator.ts:89-93 | there are at most as many entries as items, and exactly as many when the ids are distinct |
| TrackAllocator.AllocationShape | src/plugins/interactive-dashboard/utils/trackAllocator.ts:96-103 | the result has one entry per id; each entry's lane is below the shared lane count |
| TrackAllocator.AssignTrackBound | src/plugins/interactive-dashboard/utils/trackAllocator.ts:89-93 | every recorded lane is below any bound that holds for all placements |
| TrackAllocator.AllocationSize | src/plugins/interactive-dashboard/utils/trackAllocator.ts:57-59 | no items give an empty allocation; distinct ids give exactly one entry per item |
| TrackAllocator.AllocationLookup | src/plugins/interactive-dashboard/utils/trackAllocator.ts:70-94 | with distinct ids, the entry of the i-th sorted item is the lane the placement gave it |
| TrackAllocator.AllocationNoOverlap | src/plugins/interactive-dashboard/utils/trackAllocator.ts:5-6 | two different items on the same lane do not overlap as half-open intervals |
| TrackAllocator.AllocationOrderIndependent | src/plugins/interactive-dashboard/utils/trackAllocator.ts:63 | with pairwise distinct start times, the allocation does not depend on input order |
| TrackAllocator.RangeSize | src/plugins/interactive-dashboard/utils/trackAllocator.ts:97 | lane numbers 0..n-1 form a set of n numbers |
| TrackAllocator.ConcurrentIsActiveCount | src/plugins/interactive-dashboard/utils/trackAllocator.ts:37 | the number of items active at a time equals the size of the set of active positions |
| TrackAllocator.ConcurrentAppend | src/plugins/interactive-dashboard/utils/trackAllocator.ts:37 | concurrency of a concatenation is the sum over the parts |
| TrackAllocator.ConcurrentPermutation | src/plugins/interactive-dashboard/utils/trackAllocator.ts:37 | concurrency depends only on the items, not on their order |
| TrackAllocator.InjectionBound | src/plugins/interactive-dashboard/utils/trackAllocator.ts:37 | an injection from one set into another bounds the first set's size by the second's |
| TrackAllocator.LanesBoundConcurrency | src/plugins/interactive-dashboard/utils/trackAllocator.ts:5-6 | active items sit on distinct lanes, so no time has more active items than lanes |
| TrackAllocator.OldLaneActive | src/plugins/interactive-dashboard/utils/trackAllocator.ts:84-87 | when an item opens a new lane, the last item of every older lane is still active at its start |
| TrackAllocator.WitnessFacts | src/plugins/interactive-dashboard/utils/trackAllocator.ts:84-87 | the item chosen for each lane is active when a new lane opens, and lanes get distinct chosen items |
| TrackAllocator.NewLaneWitness | src/plugins/interactive-dashboard/utils/trackAllocator.ts:84-87 | opening a new lane means at least (old lane count + 1) items are active at that moment |
| TrackAllocator.LaneCountStep | src/plugins/interactive-dashboard/utils/trackAllocator.ts:84-87 | placing an item adds a lane exactly when no existing lane fits it |
| TrackAllocator.ConcurrencyWitness | src/plugins/interactive-dashboard/utils/trackAllocator.ts:37 | for items of positive duration, some time has as many active items as there are lanes |
| TrackAllocator.ConcurrencyBound | src/plugins/interactive-dashboard/utils/trackAllocator.ts:5-6 | no time has more active items than the allocation's lane count |
| TrackAllocator.OptimalForPositiveDurations | src/plugins/interactive-dashboard/utils/trackAllocator.ts:7 | for items of positive duration, the lane count equals the largest number of items active at once |
| TrackAllocator.ZeroDurationExtraTrack | src/plugins/interactive-dashboard/utils/trackAllocator.ts:37 | a zero-length item inside another item's span still opens a second lane, though at most one item is ever active |
| TrackAllocator.AllocateTracks | src/plugins/interactive-dashboard/utils/trackAllocator.ts:53-106 | the result is the allocation above: one entry per id, all sharing the final lane count, each lane below it |
| TrackAllocator.PlaceAll | src/plugins/interactive-dashboard/utils/trackAllocator.ts:68-94 | the placement loop ends with the greedy lane ends and the first-pass map |
| TrackAllocator.PlacementStep | src/plugins/interactive-dashboard/utils/trackAllocator.ts:70-94 | one loop turn extends both the lanes and the map by the next item |
| TrackAllocator.FitItem | src/plugins/interactive-dashboard/utils/trackAllocator.ts:72-87 | the loop body picks the first fitting lane and overwrites its end, or pushes a new lane |
| TrackAllocator.RecordTotals | src/plugins/interactive-dashboard/utils/trackAllocator.ts:96-103 | the second pass keeps every lane and writes the final lane count into every entry |
| InteractiveFilters.PutFilter | src/plugins/interactive-dashboard/managers/FilterManager.ts:28-36 | an empty value set removes the filter; any other set stores a toggle-behaviour filter under its id; no other filter changes |
| InteractiveFilters.ToggleValue | src/plugins/interactive-dashboard/managers/FilterManager.ts:40-52 | an unknown id changes nothing; a present value is removed, and the filter with it once its set is empty; an absent value is added; other filters are untouched |
| InteractiveFilters.PutFilterWellFormed | src/plugins/interactive-dashboard/managers/FilterManager.ts:28-36 | setting a filter keeps every stored filter non-empty and stored under its own id |
| InteractiveFilters.ToggleWellFormed | src/plugins/interactive-dashboard/managers/FilterManager.ts:40-52 | toggling keeps every stored filter non-empty and stored under its own id |
| InteractiveFilters.ToggleTwice | src/plugins/interactive-dashboard/managers/FilterManager.ts:40-52 | toggling a value twice restores the filters exactly when the value was not the filter's only value |
| InteractiveFilters.ToggleTwiceDropsLast | src/plugins/interactive-dashboard/managers/FilterManager.ts:44-48 | toggling a filter's only value twice leaves the filter removed |
| InteractiveFilters.ToggleTwiceRestores | src/plugins/interactive-dashboard/managers/FilterManager.ts:44-51 | toggling any other value twice restores the filters |
| InteractiveFilters.LetterRun | src/plugins/interactive-dashboard/managers/FilterManager.ts:146 | the leading run of ASCII letters is maximal |
| InteractiveFilters.PrefixedNumber | src/plugins/interactive-dashboard/managers/FilterManager.ts:146-148 | a match of letters, underscore, digits yields a non-empty all-digit group |
| InteractiveFilters.PrefixedNumberOf | src/plugins/interactive-dashboard/managers/FilterManager.ts:146-148 | letters + "_" + digits matches and yields exactly the digits |
| InteractiveFilters.LetterRunOf | src/plugins/interactive-dashboard/managers/FilterManager.ts:146 | any maximal run of letters is the one computed |
| InteractiveFilters.ValuesMatchSymmetric | src/plugins/interactive-dashboard/managers/FilterManager.ts:132-162 | the matcher gives the same answer with cell and filter value swapped |
| InteractiveFilters.ValuesMatchReflexive | src/plugins/interactive-dashboard/managers/FilterManager.ts:134 | every value except NaN matches itself |
| InteractiveFilters.NaNMatchesNothing | src/plugins/interactive-dashboard/managers/FilterManager.ts:132-162 | a NaN cell matches no filter value, not even through its text "NaN" |
| InteractiveFilters.NaNHasNoPrefixedNumber | src/plugins/interactive-dashboard/managers/FilterManager.ts:146 | the text "NaN" does not match the prefix pattern |
| InteractiveFilters.NaNIsNoDigits | src/plugins/interactive-dashboard/managers/FilterManager.ts:146-158 | no prefixed label has "NaN" as its digits |
| InteractiveFilters.PrefixedLabelMatches | src/plugins/interactive-dashboard/managers/FilterManager.ts:140-151 | a numeric cluster id matches its prefixed label, e.g. 55 matches "origin_55" |
| InteractiveFilters.Apply | src/plugins/interactive-dashboard/managers/FilterManager.ts:77-127 | no filters return the data itself; otherwise a row is kept exactly when it is in the data and every filter accepts it (some value matches, or its cell falls in a selected bin) |
| InteractiveFilters.ApplyAppend | src/plugins/interactive-dashboard/managers/FilterManager.ts:91-126 | filtering distributes over concatenation, so the kept rows keep their order |
| InteractiveFilters.NullCellInZeroBin | src/plugins/interactive-dashboard/managers/FilterManager.ts:99-110 | a null or empty-string cell reads as 0 and falls into the selected bin starting at 0 |
| InteractiveFilters.ZeroCellInZeroBin | src/plugins/interactive-dashboard/managers/FilterManager.ts:99-110 | a cell reading as 0 falls into the selected bin starting at 0 |
| InteractiveFilters.UndefinedCellInNoBin | src/plugins/interactive-dashboard/managers/FilterManager.ts:101-102 | a missing cell reads as NaN and falls into no bin |
| InteractiveFilters.FilterManager.constructor | src/plugins/interactive-dashboard/managers/FilterManager.ts:17-18 | the manager starts with no filters, no observers and no notifications |
| InteractiveFilters.FilterManager.AddObserver | src/plugins/interactive-dashboard/managers/FilterManager.ts:20-22 | the observer joins the set; nothing else changes |
| InteractiveFilters.FilterManager.RemoveObserver | src/plugins/interactive-dashboard/managers/FilterManager.ts:24-26 | the observer leaves the set; nothing else changes |
| InteractiveFilters.FilterManager.NotifyObservers | src/plugins/interactive-dashboard/managers/FilterManager.ts:164-166 | every current observer is told the current filters, which do not change |
| InteractiveFilters.FilterManager.SetFilter | src/plugins/interactive-dashboard/managers/FilterManager.ts:28-38 | the filters become the result of setting the filter, and the observers are notified once |
| InteractiveFilters.FilterManager.ToggleFilterValue | src/plugins/interactive-dashboard/managers/FilterManager.ts:40-54 | the filters become the toggled ones; the observers are notified only when the id was known |
| InteractiveFilters.FilterManager.ClearFilter | src/plugins/interactive-dashboard/managers/FilterManager.ts:56-59 | the filter with that id is removed and the observers are notified |
| InteractiveFilters.FilterManager.ClearAllFilters | src/plugins/interactive-dashboard/managers/FilterManager.ts:61-64 | no filter remains and the observers are notified |
| InteractiveFilters.FilterManager.GetFilters | src/plugins/interactive-dashboard/managers/FilterManager.ts:66-68 | returns the current filters |
| InteractiveFilters.FilterManager.HasActiveFilters | src/plugins/interactive-dashboard/managers/FilterManager.ts:70-72 | true exactly when some filter is stored |
| InteractiveFilters.FilterManager.ApplyFilters | src/plugins/interactive-dashboard/managers/FilterManager.ts:77-127 | with no active filter the data comes back unchanged; otherwise exactly the rows every current filter accepts |
| LegacyFilters.PutFilter | src/managers/FilterManager.ts:27-30 | the filter is stored under its id even with no values, replacing any earlier one; no other filter changes |
| LegacyFilters.ToggleValue | src/managers/FilterManager.ts:32-44 | an unknown id changes nothing; a present value is removed and the filter dropped once empty; an absent value is added; other filters are untouched |
| LegacyFilters.TransitionsWellFormed | src/managers/FilterManager.ts:27-46 | setting and toggling keep every filter stored under its own id |
| LegacyFilters.Apply | src/managers/FilterManager.ts:65-80 | no filters return the data itself; otherwise a row is kept exactly when it is in the data and each filter's set holds the row's cell |
| LegacyFilters.EmptyFilterRejectsAll | src/managers/FilterManager.ts:27-30 | a filter set with no values rejects every row |
| LegacyFilters.ApplyIdempotent | src/managers/FilterManager.ts:65-80 | applying the filters to their own output changes nothing |
| LegacyFilters.ApplyAppend | src/managers/FilterManager.ts:68-79 | filtering distributes over concatenation, so the kept rows keep their order |
| LegacyFilters.PutFilterNarrows | src/managers/FilterManager.ts:27-30 | adding a new filter can only drop rows |
| LegacyFilters.FilterManager.constructor | src/managers/FilterManager.ts:16-17 | the manager starts with no filters, no observers and no notifications |
| LegacyFilters.FilterManager.AddObserver | src/managers/FilterManager.ts:19-21 | the observer joins the set; nothing else changes |
| LegacyFilters.FilterManager.RemoveObserver | src/managers/FilterManager.ts:23-25 | the observer leaves the set; nothing else changes |
| LegacyFilters.FilterManager.NotifyObservers | src/managers/FilterManager.ts:82-84 | every current observer is told the current filters, which do not change |
| LegacyFilters.FilterManager.SetFilter | src/managers/FilterManager.ts:27-30 | the filters become the result of setting the filter, and the observers are notified once |
| LegacyFilters.FilterManager.ToggleFilterValue | src/managers/FilterManager.ts:32-46 | the filters become the toggled ones; the observers are notified only when the id was known |
| LegacyFilters.FilterManager.ClearFilter | src/managers/FilterManager.ts:48-51 | the filter with that id is removed and the observers are notified |
| LegacyFilters.FilterManager.ClearAllFilters | src/managers/FilterManager.ts:53-56 | no filter remains and the observers are notified |
| LegacyFilters.FilterManager.GetFilters | src/managers/FilterManager.ts:58-60 | returns the current filters |
| LegacyFilters.FilterManager.ApplyFilters | src/managers/FilterManager.ts:65-80 | with no filter the data comes back unchanged; otherwise exactly the rows whose cells every current filter holds |
| Linkage.ToggleSelection | src/plugins/interactive-dashboard/managers/LinkageManager.ts:39-47 | ids outside the toggled set keep their state; when all toggled ids were selected they all end up unselected, otherwise they all end up selected |
| Linkage.ToggleNothing | src/plugins/interactive-dashboard/managers/LinkageManager.ts:40-43 | toggling no ids leaves the selection unchanged, since every id of an empty set counts as selected |
| Linkage.ToggleTwice | src/plugins/interactive-dashboard/managers/LinkageManager.ts:39-47 | toggling the same ids twice restores the selection exactly when they were all selected or all unselected |
| Linkage.PairHandlers | src/plugins/interactive-dashboard/managers/LinkageManager.ts:90-97 | an observer receives the pair notification exactly when it defines a pair handler |
| Linkage.LinkageManager.constructor | src/plugins/interactive-dashboard/managers/LinkageManager.ts:16-19 | the manager starts with nothing hovered or selected, no observers, no pair and no notifications |
| Linkage.LinkageManager.AddObserver | src/plugins/interactive-dashboard/managers/LinkageManager.ts:21-23 | the observer joins the set; nothing else changes |
| Linkage.LinkageManager.RemoveObserver | src/plugins/interactive-dashboard/managers/LinkageManager.ts:25-27 | the observer leaves the set; nothing else changes |
| Linkage.LinkageManager.SetHoveredIds | src/plugins/interactive-dashboard/managers/LinkageManager.ts:29-32 | the hovered ids become the given ids, and every observer is told them through the hover channel |
| Linkage.LinkageManager.SetSelectedIds | src/plugins/interactive-dashboard/managers/LinkageManager.ts:34-37 | the selected ids become the given ids, and every observer is told them through the selection channel |
| Linkage.LinkageManager.ToggleSelectedIds | src/plugins/interactive-dashboard/managers/LinkageManager.ts:39-49 | the selection becomes the toggled one, and every observer is told the new selection |
| Linkage.LinkageManager.ClearSelection | src/plugins/interactive-dashboard/managers/LinkageManager.ts:51-54 | nothing is selected, and every observer is told the empty selection |
| Linkage.LinkageManager.GetHoveredIds | src/plugins/interactive-dashboard/managers/LinkageManager.ts:56-58 | returns the hovered ids |
| Linkage.LinkageManager.GetSelectedIds | src/plugins/interactive-dashboard/managers/LinkageManager.ts:60-62 | returns the selected ids |
| Linkage.LinkageManager.SetSelectedAttributePair | src/plugins/interactive-dashboard/managers/LinkageManager.ts:72-76 | the pair is stored and only the observers with a pair handler are told it |
| Linkage.LinkageManager.NotifyAttributePairSelection | src/plugins/interactive-dashboard/managers/LinkageManager.ts:86-99 | with no pair nobody is told anything; otherwise the pair handlers are told the stored pair |
| Linkage.LinkageManager.GetSelectedAttributePair | src/plugins/interactive-dashboard/managers/LinkageManager.ts:78-80 | returns the stored pair, or none |
| Linkage.LinkageManager.ClearAttributePairSelection | src/plugins/interactive-dashboard/managers/LinkageManager.ts:82-84 | the pair is reset and no observer is told |
| LayerColoring.GroupKey | src/plugins/interactive-dashboard/managers/LayerColoringManager.ts:52 | a layer is grouped under its lower-cased geoProperty, or under "__standalone_" + its name when that is absent or empty |
| LayerColoring.GroupsKeys | src/plugins/interactive-dashboard/managers/LayerColoringManager.ts:49-61 | the groups' keys are exactly the keys of the layers |
| LayerColoring.MembersNone | src/plugins/interactive-dashboard/managers/LayerColoringManager.ts:54-61 | a key no earlier layer had starts a group with no members |
| LayerColoring.AddDescribes | src/plugins/interactive-dashboard/managers/LayerColoringManager.ts:49-71 | adding one layer keeps every group an accurate description of the layers seen so far |
| LayerColoring.AddElsewhere | src/plugins/interactive-dashboard/managers/LayerColoringManager.ts:63-70 | a layer under another key leaves a group as it was |
| LayerColoring.AddJoins | src/plugins/interactive-dashboard/managers/LayerColoringManager.ts:63-70 | a layer joining its group is appended, sets hasArc if it is an arc and otherwise counts as one more geometry |
| LayerColoring.GroupsCharacterized | src/plugins/interactive-dashboard/managers/LayerColoringManager.ts:44-74 | every layer lands in the one group under its key; each group lists its layers in input order, hasArc says whether one is an arc, and geometryCount counts the others |
| LayerColoring.MemberTotalAll | src/plugins/interactive-dashboard/managers/LayerColoringManager.ts:49-64 | when the listed keys cover every layer's key, each layer is counted in exactly one group's members |
| LayerColoring.GroupSizesSum | src/plugins/interactive-dashboard/managers/LayerColoringManager.ts:44-74 | the sizes of the computed groups add up to the number of layers |
| LayerColoring.ComputeLayerRole | src/plugins/interactive-dashboard/managers/LayerColoringManager.ts:97-161 | an override other than auto wins; then all gives primary and explicit gives neutral; under auto a layer is neutral exactly when it is not an arc and its group holds both an arc and a geometry layer, and never secondary |
| LayerColoring.GroupKeysPresent | src/plugins/interactive-dashboard/managers/LayerColoringManager.ts:209-210 | every layer finds its group among the computed groups |
| LayerColoring.RolesOverNames | src/plugins/interactive-dashboard/managers/LayerColoringManager.ts:208-218 | there is one entry per layer name, and each entry is about that name |
| LayerColoring.RolesOverDistinct | src/plugins/interactive-dashboard/managers/LayerColoringManager.ts:208-218 | with distinct names, each layer's entry is its role within its own group |
| LayerColoring.AllRolesShape | src/plugins/interactive-dashboard/managers/LayerColoringManager.ts:180-221 | no layers (or a null argument) give no roles; otherwise one entry per distinct layer name, about that name |
| LayerColoring.GroupFlags | src/plugins/interactive-dashboard/managers/LayerColoringManager.ts:66-70 | a group's hasArc and geometryCount > 0 say whether some layer under its key is an arc, resp. not an arc |
| LayerColoring.AutoNeutralOnlyInMixedGroups | src/plugins/interactive-dashboard/managers/LayerColoringManager.ts:128-141 | under auto, with distinct names, a layer without override is neutral exactly when it is not an arc and layers under its key include an arc and a non-arc |
| LayerColoring.ComputeLayerGroups | src/plugins/interactive-dashboard/managers/LayerColoringManager.ts:44-74 | the loop builds exactly the grouping described above |
| LayerColoring.GroupsStep | src/plugins/interactive-dashboard/managers/LayerColoringManager.ts:49-71 | one more input layer is one more grouping step |
| LayerColoring.RolesOverStep | src/plugins/interactive-dashboard/managers/LayerColoringManager.ts:208-218 | one more input layer sets one more entry, overwriting an earlier layer of the same name |
| LayerColoring.ComputeAllLayerRoles | src/plugins/interactive-dashboard/managers/LayerColoringManager.ts:180-221 | the loop returns the roles described above |
| LayerColoring.LayerColoringManager.constructor | src/plugins/interactive-dashboard/managers/LayerColoringManager.ts:229-235 | the manager starts with the given strategy and an empty cache |
| LayerColoring.LayerColoringManager.SetStrategy | src/plugins/interactive-dashboard/managers/LayerColoringManager.ts:240-242 | the strategy changes and the cache is kept |
| LayerColoring.LayerColoringManager.GetStrategy | src/plugins/interactive-dashboard/managers/LayerColoringManager.ts:247-249 | returns the current strategy |
| LayerColoring.LayerColoringManager.ComputeRoles | src/plugins/interactive-dashboard/managers/LayerColoringManager.ts:254-257 | the cache becomes the roles of the given layers under the current strategy, and is returned |
| LayerColoring.LayerColoringManager.GetRole | src/plugins/interactive-dashboard/managers/LayerColoringManager.ts:262-264 | a cached layer's role, or none for an unknown layer |
| LayerColoring.LayerColoringManager.ShouldApplyColorBy | src/plugins/interactive-dashboard/managers/LayerColoringManager.ts:269-272 | true exactly when the layer is cached with a primary or secondary role |
| LayerColoring.LayerColoringManager.ClearCache | src/plugins/interactive-dashboard/managers/LayerColoringManager.ts:277-279 | the cache is emptied and the strategy kept |
| Statistics.PairsUpTo | src/plugins/interactive-dashboard/utils/statistics.ts:112-123 | the pairs collected from the first m positions are at most m |
| Statistics.PairsUpToMembers | src/plugins/interactive-dashboard/utils/statistics.ts:112-123 | a pair is kept exactly when some position below m holds two valid samples, and the pair is those samples unconverted |
| Statistics.PairsUpToPrefix | src/plugins/interactive-dashboard/utils/statistics.ts:112-123 | only the first m positions of both arrays are read |
| Statistics.ValidPairsIgnoresTail | src/plugins/interactive-dashboard/utils/statistics.ts:112 | samples past the shorter array are never read |
| Statistics.PairsUpToSwap | src/plugins/interactive-dashboard/utils/statistics.ts:112-123 | swapping the arrays swaps each kept pair, so the sample count is the same |
| Statistics.Firsts | src/plugins/interactive-dashboard/utils/statistics.ts:137 | the x column of the kept pairs, in order |
| Statistics.Seconds | src/plugins/interactive-dashboard/utils/statistics.ts:138 | the y column of the kept pairs, in order |
| Statistics.Clamp | src/plugins/interactive-dashboard/utils/statistics.ts:155-157 | r is kept when abs(r) <= 0.9999 and otherwise replaced by 0.9999 with r's sign; the result is always within [-0.9999, 0.9999] |
| Statistics.Correlation | src/plugins/interactive-dashboard/utils/statistics.ts:104-176 | n is the number of valid pairs; fewer than 3 pairs or an undefined correlation give (r 0, p 1, not significant); otherwise r is the clamped correlation of the raw kept samples, p = 2·(1 − tCDF(abs(t), n − 2)) for the t statistic of r, and the result is significant exactly when p < alpha |
| Statistics.CorrelationWithPValue | src/plugins/interactive-dashboard/utils/statistics.ts:104-176 | the pairing loop and guards compute the correlation result described above |
| Statistics.MatrixCell | src/plugins/interactive-dashboard/utils/statistics.ts:220-236 | diagonal cells are (1, 0, number of rows); off-diagonal cells count the valid pairs of the two columns and carry a clamped r |
| Statistics.SampleSizesSymmetric | src/plugins/interactive-dashboard/utils/statistics.ts:215-238 | sample sizes are symmetric: cell (i, j) and cell (j, i) count the same rows |
| Statistics.SampleSizeCountsRows | src/plugins/interactive-dashboard/utils/statistics.ts:226-235 | an off-diagonal sample size is at most the number of rows, and the pairs are exactly the raw values of rows where both attributes hold valid samples |
| Statistics.RowSnoc | src/plugins/interactive-dashboard/utils/statistics.ts:220-236 | appending the next cell extends a matching row of the three matrices |
| Statistics.ComputeCorrelationMatrix | src/plugins/interactive-dashboard/utils/statistics.ts:195-246 | the result carries the attributes, three k-by-k matrices, and every cell is the cell described above |
| Styling.SplitTwo | src/plugins/interactive-dashboard/managers/StyleManager.ts:231 | a two-part path a.b splits back into a and b |
| Styling.ModeMattersOnlyForThemeAndChart | src/plugins/interactive-dashboard/managers/StyleManager.ts:230-293 | only theme and chart colours depend on the light/dark mode |
| Styling.ModesDiffer | src/plugins/interactive-dashboard/managers/StyleManager.ts:104-140 | every theme and chart colour has different light and dark values |
| Styling.ThemeFollowsMode | src/plugins/interactive-dashboard/managers/StyleManager.ts:250-256 | a theme entry resolves to its variant for the current mode, so switching mode switches it |
| Styling.UnknownThemeEntry | src/plugins/interactive-dashboard/managers/StyleManager.ts:250-257 | a theme path naming no entry falls through to the grey fallback |
| Styling.ClusterPath | src/plugins/interactive-dashboard/managers/StyleManager.ts:234-240 | a non-empty override wins over the default cluster colour, an empty one is ignored, and a name with neither is undefined |
| Styling.CategoricalPath | src/plugins/interactive-dashboard/managers/StyleManager.ts:273-278 | categorical.i is the palette entry at i % 15, undefined when that JavaScript remainder is negative |
| Styling.CategoricalParts | src/plugins/interactive-dashboard/managers/StyleManager.ts:273-278 | the parts "categorical" and a number's text resolve to the palette entry for that number |
| Styling.UnknownGroup | src/plugins/interactive-dashboard/managers/StyleManager.ts:290-292 | a path whose first part names no colour group gets the grey fallback |
| Styling.ResolveUndefined | src/plugins/interactive-dashboard/managers/StyleManager.ts:230-293 | a colour is undefined exactly for a cluster name with neither override nor default, and for a categorical index with negative remainder |
| Styling.ThemeWellFormed | src/plugins/interactive-dashboard/managers/StyleManager.ts:104-118 | every theme colour is a #rrggbb colour in both modes |
| Styling.BackgroundWellFormed | src/plugins/interactive-dashboard/managers/StyleManager.ts:105-109 | the background colours are #rrggbb colours |
| Styling.TextWellFormed | src/plugins/interactive-dashboard/managers/StyleManager.ts:110-113 | the text colours are #rrggbb colours |
| Styling.BorderWellFormed | src/plugins/interactive-dashboard/managers/StyleManager.ts:114-117 | the border colours are #rrggbb colours |
| Styling.ChartWellFormed | src/plugins/interactive-dashboard/managers/StyleManager.ts:134-140 | the chart colours are #rrggbb colours |
| Styling.FixedColorsWellFormed | src/plugins/interactive-dashboard/managers/StyleManager.ts:121-131 | the interaction and cluster colours and the fallback are #rrggbb colours |
| Styling.ResolvedColorsWellFormed | src/plugins/interactive-dashboard/managers/StyleManager.ts:230-293 | with well-formed overrides, every defined colour getColor returns is a #rrggbb colour |
| Styling.ClusterPartsWellFormed | src/plugins/interactive-dashboard/managers/StyleManager.ts:234-240 | every defined cluster colour is a #rrggbb colour |
| Styling.InteractionPartsWellFormed | src/plugins/interactive-dashboard/managers/StyleManager.ts:243-247 | every interaction colour is a #rrggbb colour |
| Styling.ThemePartsWellFormed | src/plugins/interactive-dashboard/managers/StyleManager.ts:250-257 | every theme-path colour is a #rrggbb colour |
| Styling.ChartPartsWellFormed | src/plugins/interactive-dashboard/managers/StyleManager.ts:260-270 | every chart-path colour is a #rrggbb colour |
| Styling.CategoricalPartsWellFormed | src/plugins/interactive-dashboard/managers/StyleManager.ts:273-278 | every defined categorical-path colour is a #rrggbb colour |
| Styling.NamedPartsWellFormed | src/plugins/interactive-dashboard/managers/StyleManager.ts:281-288 | every mode and activity colour is a #rrggbb colour |
| Styling.OtherPartsWellFormed | src/plugins/interactive-dashboard/managers/StyleManager.ts:290-292 | any other path gets a #rrggbb colour |
| Styling.ClusterColorWellFormed | src/plugins/interactive-dashboard/managers/StyleManager.ts:236-239 | a cluster override or default is a #rrggbb colour |
| Styling.FixedColorWellFormed | src/plugins/interactive-dashboard/managers/StyleManager.ts:244-246 | an interaction entry or the fallback is a #rrggbb colour |
| Styling.ThemeEntryWellFormed | src/plugins/interactive-dashboard/managers/StyleManager.ts:253-255 | a theme entry is a #rrggbb colour in the current mode |
| Styling.ChartEntryWellFormed | src/plugins/interactive-dashboard/managers/StyleManager.ts:261-268 | a bar or grid colour is a #rrggbb colour in the current mode |
| Styling.PaletteEntryWellFormed | src/plugins/interactive-dashboard/managers/StyleManager.ts:276 | a defined palette entry is a #rrggbb colour |
| Styling.NamedEntryWellFormed | src/plugins/interactive-dashboard/managers/StyleManager.ts:282-287 | a mode or activity entry, or its default, is a #rrggbb colour |
| Styling.ResolveRgbaBytes | src/plugins/interactive-dashboard/managers/StyleManager.ts:305-308 | getColorRGBA fails exactly where getColor is undefined; otherwise it gives three bytes and the requested alpha |
| Styling.StyleManager.constructor | src/plugins/interactive-dashboard/managers/StyleManager.ts:93-98 | a new manager is in dark mode with no cluster overrides |
| Styling.StyleManager.SetMode | src/plugins/interactive-dashboard/managers/StyleManager.ts:212-217 | the mode changes and with it the theme and chart colours only; every other path keeps its colour |
| Styling.StyleManager.SetClusterColors | src/plugins/interactive-dashboard/managers/StyleManager.ts:323-326 | the overrides become the given colours, and each non-empty one is what its cluster path now resolves to |
| Styling.StyleManager.ResetClusterColors | src/plugins/interactive-dashboard/managers/StyleManager.ts:331-334 | no overrides remain, so the cluster paths resolve to the defaults again |
| Styling.DimmedColor | src/plugins/interactive-dashboard/managers/StyleManager.ts:305-318 | getDimmedColorRGBA fails exactly where getColor is undefined; otherwise it is getColorRGBA's colour with alpha 77, and three bytes when the overrides are well formed |
| Styling.CategoricalColorAgrees | src/plugins/interactive-dashboard/managers/StyleManager.ts:339-341 | getCategoricalColor(i) is getColor("categorical." + i) |
| DashboardColors.NamedColorLookup | src/plugins/interactive-dashboard/utils/colorSchemes.ts:139-161 | mode and activity lookups ignore letter case and always give a colour of their table, the default (resp. other) entry for an unknown name |
| DashboardColors.ModeColorsWellFormed | src/plugins/interactive-dashboard/utils/colorSchemes.ts:17-29 | every mode colour is a #rrggbb colour |
| DashboardColors.ActivityColorsWellFormed | src/plugins/interactive-dashboard/utils/colorSchemes.ts:36-43 | every activity colour is a #rrggbb colour |
| DashboardColors.PaletteWellFormed | src/plugins/interactive-dashboard/utils/colorSchemes.ts:50-66 | every palette colour is a #rrggbb colour |
| DashboardColors.ModeColorRgbBytes | src/plugins/interactive-dashboard/utils/colorSchemes.ts:147-153 | getModeColorRGB gives three bytes and the requested alpha |
| DashboardColors.ToInt32 | src/plugins/interactive-dashboard/utils/colorSchemes.ts:188 | the 32-bit conversion that the shift applies lands in [-2^31, 2^31) |
| DashboardColors.StringHashBound | src/plugins/interactive-dashboard/utils/colorSchemes.ts:186-188 | the string hash grows by a bounded amount per character, so for strings under 2^21 characters it stays where double arithmetic is exact |
| DashboardColors.PaletteAt | src/plugins/interactive-dashboard/utils/colorSchemes.ts:182 | CATEGORICAL_COLORS[i % 15] is defined exactly when the JavaScript remainder is non-negative |
| DashboardColors.CategoryColorFromTables | src/plugins/interactive-dashboard/utils/colorSchemes.ts:167-190 | a defined category colour always comes from the mode table, the activity table or the palette |
| DashboardColors.ModeCategoryColor | src/plugins/interactive-dashboard/utils/colorSchemes.ts:169-172 | a known mode name gets a mode-table colour |
| DashboardColors.ActivityCategoryColor | src/plugins/interactive-dashboard/utils/colorSchemes.ts:175-178 | a known activity name that is not a mode gets an activity-table colour |
| DashboardColors.PaletteCategoryColor | src/plugins/interactive-dashboard/utils/colorSchemes.ts:180-189 | any other value gets a palette colour, when it gets one |
| DashboardColors.TableValue | src/plugins/interactive-dashboard/utils/colorSchemes.ts:169-178 | a looked-up entry is one of the table's colours |
| DashboardColors.CategoryColorUndefined | src/plugins/interactive-dashboard/utils/colorSchemes.ts:167-190 | the colour is undefined exactly for an unknown name given a negative index whose remainder by 15 is not 0 |
| DashboardColors.CategoryColorWithIndex | src/plugins/interactive-dashboard/utils/colorSchemes.ts:181-183 | a non-negative index always gives a colour |
| DashboardColors.CategoryColorIgnoresIndex | src/plugins/interactive-dashboard/utils/colorSchemes.ts:168-178 | known mode and activity names get their table colour whatever the index |
| DashboardColors.CategoryColorByIndex | src/plugins/interactive-dashboard/utils/colorSchemes.ts:181-183 | other names get the palette entry at index % 15, so indices 15 apart share a colour |
| DashboardColors.LowerWordNormal | src/plugins/interactive-dashboard/utils/colorSchemes.ts:140 | a lower-case word is its own normalised name |
| DashboardColors.ModeKeysLower | src/plugins/interactive-dashboard/utils/colorSchemes.ts:17-29 | every mode-table key is a lower-case word |
| DashboardColors.CategoryColorOfMode | src/plugins/interactive-dashboard/utils/colorSchemes.ts:167-172 | on a known mode name, getCategoryColor agrees with getModeColor whatever the index |
| DashboardColors.PaletteDistinct | src/plugins/interactive-dashboard/utils/colorSchemes.ts:50-66 | the fifteen palette colours are pairwise different |
| DashboardColors.Strings | src/plugins/interactive-dashboard/utils/colorSchemes.ts:242 | values.map(String), position by position |
| DashboardColors.ColorAtIsCategoryColor | src/plugins/interactive-dashboard/utils/colorSchemes.ts:245 | the colour set for a key is getCategoryColor of the key and its position |
| DashboardColors.ColorsUpToEntries | src/plugins/interactive-dashboard/utils/colorSchemes.ts:244-246 | setting distinct keys one by one leaves exactly those keys, each with its own colour |
| DashboardColors.BuildColorMap | src/plugins/interactive-dashboard/utils/colorSchemes.ts:240-249 | one entry per distinct String(v), in first-occurrence order, each coloured by getCategoryColor with its position |
| DashboardColors.ColorMapSpreads | src/plugins/interactive-dashboard/utils/colorSchemes.ts:240-249 | among values without a table colour, any fifteen consecutive keys of the map get fifteen different colours |
| RequestColors.ModeColorsWellFormed | src/plugins/commuter-requests/utils/colorSchemes.ts:6-14 | every colour of the requests plugin's mode table is a #rrggbb colour |
| RequestColors.ModeColorLookup | src/plugins/commuter-requests/utils/colorSchemes.ts:19-21 | the lookup ignores letter case and always gives a table colour, the default for an unknown name |
| RequestColors.ModeColorRgbBytes | src/plugins/commuter-requests/utils/colorSchemes.ts:33-39 | getModeColorRGB reads the same bytes as the dashboard's hexToRgba: three bytes and the requested alpha |
| RequestColors.AgreesWithDashboard | src/plugins/commuter-requests/utils/colorSchemes.ts:6-14 | every mode of this table has the colour the interactive dashboard's table gives it |
| RequestColors.GenerateModePalette | src/plugins/commuter-requests/utils/colorSchemes.ts:44-52 | one entry per listed mode, each that mode's colour |
| RequestColors.PaletteColorsWellFormed | src/plugins/commuter-requests/utils/colorSchemes.ts:44-52 | every colour of a generated palette is a well-formed table colour |
| HexColors.Slice | src/plugins/interactive-dashboard/utils/colorSchemes.ts:213-215 | slice with non-negative bounds clamps both to the length |
| HexColors.RemoveFirstHash | src/plugins/interactive-dashboard/utils/colorSchemes.ts:212 | replace('#', '') drops the first '#', and changes nothing without one |
| HexColors.StripLeadingHash | src/plugins/commuter-clustering/utils/colorSchemes.ts:147 | replace(/^#/, '') drops only a leading '#' |
| HexColors.HexDigitRadix | src/plugins/interactive-dashboard/utils/colorSchemes.ts:213 | the hex digits are exactly the digits parseInt accepts in radix 16 |
| HexColors.HexColorPairs | src/plugins/interactive-dashboard/utils/colorSchemes.ts:213-215 | the three pairs of a #rrggbb colour are radix-16 digit strings |
| HexColors.HexDigit | src/plugins/interactive-dashboard/utils/colorSchemes.ts:213 | the digit character spells its value in radix 16 |
| HexColors.HexByte | src/plugins/interactive-dashboard/utils/colorSchemes.ts:213 | two hex digits for a byte |
| HexColors.HexOf | src/plugins/interactive-dashboard/utils/colorSchemes.ts:211-217 | three bytes spelled as #rrggbb form a well-formed colour |
| HexColors.HexDigitNotSpace | src/plugins/interactive-dashboard/utils/colorSchemes.ts:213 | a hex digit is neither whitespace nor a sign nor a radix prefix letter |
| HexColors.PairParses | src/plugins/interactive-dashboard/utils/colorSchemes.ts:213 | parseInt of two hex digits is their value |
| HexColors.PairBound | src/plugins/interactive-dashboard/utils/colorSchemes.ts:213 | two hex digits make a byte |
| HexColors.SliceParses | src/plugins/interactive-dashboard/utils/colorSchemes.ts:213-215 | the two hex digits at a position, sliced and parsed, give their value |
| HexColors.PairsAtDigits | src/plugins/interactive-dashboard/utils/colorSchemes.ts:213-215 | six hex digits read as three byte values |
| HexColors.HexToRgbaOfColor | src/plugins/interactive-dashboard/utils/colorSchemes.ts:211-217 | the dashboard's hexToRgba reads a #rrggbb colour's three pairs |
| HexColors.HexToRgbaLeadingOfColor | src/plugins/commuter-clustering/utils/colorSchemes.ts:146-156 | the clustering plugin's hexToRgba reads the same pairs |
| HexColors.HexToRgbaFromOneOfColor | src/plugins/commuter-requests/utils/colorSchemes.ts:33-39 | the requests plugin's parsing from position 1 reads the same pairs |
| HexColors.HexColorChannels | src/plugins/interactive-dashboard/managers/StyleManager.ts:442-448 | on a well-formed colour all three parsers agree, each channel is a byte and the alpha is passed through |
| HexColors.HexByteValue | src/plugins/interactive-dashboard/utils/colorSchemes.ts:213 | the two digits of a byte read back as the byte |
| HexColors.HexOfPairs | src/plugins/interactive-dashboard/utils/colorSchemes.ts:211-217 | the pairs of #rrggbb spell the three bytes |
| HexColors.HexOfRoundTrip | src/plugins/interactive-dashboard/utils/colorSchemes.ts:211-217 | spelling three bytes as #rrggbb and parsing with hexToRgba gives the bytes back |
| ClusteringColors.DefaultTablesOpaque | src/plugins/commuter-clustering/utils/colorSchemes.ts:9-24 | every default mode and activity colour is opaque with byte channels |
| ClusteringColors.NamedColors | src/plugins/commuter-clustering/utils/colorSchemes.ts:51-78 | a non-empty configured colour wins and is read from its #rrggbb digits; otherwise the table colour or the other colour; a falsy activity is other; with well-formed configured colours every result is opaque with byte channels |
| ClusteringColors.Clamp | src/plugins/commuter-clustering/utils/colorSchemes.ts:89 | the clamped value lies in [min, max] and is the value itself when already inside |
| ClusteringColors.Ratio | src/plugins/commuter-clustering/utils/colorSchemes.ts:92 | the normalised position lies in [0, 1] |
| ClusteringColors.GradientBytes | src/plugins/commuter-clustering/utils/colorSchemes.ts:83-108 | every gradient colour is opaque with byte channels and no blue |
| ClusteringColors.GradientStops | src/plugins/commuter-clustering/utils/colorSchemes.ts:94-105 | green at or below the minimum, yellow at the midpoint, red at or above the maximum |
| ClusteringColors.DefaultedGradient | src/plugins/commuter-clustering/utils/colorSchemes.ts:39-42 | getGradientColor of the value or, when it is falsy, a default, with the default at the bottom of the scale: a falsy value is green, a truthy one is coloured as itself, a finite value at or above the top is red |
| ClusteringColors.ColorByAttributeBranches | src/plugins/commuter-clustering/utils/colorSchemes.ts:29-46 | mode and activity use their lookups; a missing or falsy max_price (resp. max_detour) is green on the 0–50 (resp. 1–2) gradient, any other is coloured as itself and red from 50 (resp. 2) up; any other attribute is gray 128,128,128,255 |
| ClusteringColors.GradientMonotone | src/plugins/commuter-clustering/utils/colorSchemes.ts:94-105 | as the value grows the colour never gets less red nor more green |
| ClusteringColors.RatioMonotone | src/plugins/commuter-clustering/utils/colorSchemes.ts:92 | the normalised position grows with the clamped value |
| ClusteringColors.FloorMonotone | src/plugins/commuter-clustering/utils/colorSchemes.ts:99 | Math.floor keeps order |
| ClusteringColors.ClusterColorShape | src/plugins/commuter-clustering/utils/colorSchemes.ts:113-141 | a cluster colour is defined exactly when id % 10 is not negative; the hull type changes only the alpha (150 origin, 100 destination, 180 none); ids 10 apart share a colour |
| ClusteringColors.ClusterColorsDistinct | src/plugins/commuter-clustering/utils/colorSchemes.ts:118-131 | ten consecutive non-negative cluster ids get ten different colours |
| ClusteringColors.Modes | src/plugins/commuter-clustering/utils/colorSchemes.ts:168 | requests.map(r => r.main_mode or r.mode), position by position |
| ClusteringColors.Activities | src/plugins/commuter-clustering/utils/colorSchemes.ts:176 | requests.map(r => r.start_activity_type), position by position |
| ClusteringColors.ModeLegendCoversRequests | src/plugins/commuter-clustering/utils/colorSchemes.ts:167-173 | the mode legend lists each mode once, only modes of requests, and each request's colour is the one the legend gives its mode |
| ClusteringColors.ActivityLegendCoversRequests | src/plugins/commuter-clustering/utils/colorSchemes.ts:174-182 | the activity legend lists each truthy activity once; a request with one has the colour the legend gives it; a request without one is drawn in the unlisted other colour |
| ClusteringColors.GradientLegends | src/plugins/commuter-clustering/utils/colorSchemes.ts:183-196 | the price and detour legends show the gradient's colours at its two ends and its midpoint |
| ClusteringTime.FilterByTimeRangeKeeps | src/plugins/commuter-clustering/utils/timeFilter.ts:8-14 | a request is kept exactly when its time is a number in [minTime, maxTime], both ends included |
| ClusteringTime.FilterByTimeRangeInOrder | src/plugins/commuter-clustering/utils/timeFilter.ts:13 | the filter keeps input order: filtering a concatenation filters each part |
| ClusteringTime.Times | src/plugins/commuter-clustering/utils/timeFilter.ts:30 | dropping null and undefined times never adds entries |
| ClusteringTime.TimeNumbers | src/plugins/commuter-clustering/utils/timeFilter.ts:36-37 | Math.min and Math.max read one number per kept time |
| ClusteringTime.MinOfIsLeast | src/plugins/commuter-clustering/utils/timeFilter.ts:36 | Math.min is finite exactly when every time is a number, and is then one of them and no time is below it |
| ClusteringTime.MaxOfIsGreatest | src/plugins/commuter-clustering/utils/timeFilter.ts:37 | Math.max is finite exactly when every time is a number, and is then one of them and no time exceeds it |
| ClusteringTime.MinAtMostMax | src/plugins/commuter-clustering/utils/timeFilter.ts:36-37 | the minimum never exceeds the maximum |
| ClusteringTime.BinCount | src/plugins/commuter-clustering/utils/timeFilter.ts:40-42 | the loop ends with span / binSize + 1 bins |
| ClusteringTime.CreateTimeBins | src/plugins/commuter-clustering/utils/timeFilter.ts:22-45 | no bins without a request time; otherwise the starts min, min + binSize, ... up to max, (max - min) / binSize + 1 of them; none when a time is not a number |
| ClusteringTime.StepFrom | src/plugins/commuter-clustering/utils/timeFilter.ts:39-42 | the loop pushes lo + k * binSize for every k that stays at or below hi |
| ClusteringTime.PadIntNat | src/plugins/commuter-clustering/utils/timeFilter.ts:55 | padStart(2, '0') of a non-negative count is its two-digit spelling |
| ClusteringTime.TimeFields | src/plugins/commuter-clustering/utils/timeFilter.ts:51-53 | hours, minutes and seconds of a non-negative time make it up, minutes and seconds below 60 |
| ClusteringTime.SplitThree | src/plugins/commuter-clustering/utils/timeFilter.ts:55 | three digit strings joined by ':' split back into themselves |
| ClusteringTime.FormatTimeSecondsReadsBack | src/plugins/commuter-clustering/utils/timeFilter.ts:50-56 | HH:MM:SS of a non-negative time reads back as that time, and begins with its HH:MM |
| ClusteringTime.FormatTimeMinutesIsClock | src/plugins/commuter-clustering/utils/timeFilter.ts:61-66 | HH:MM of a non-negative time is the clock of its whole minutes |
| ClusteringTime.FormatTimeMinutesParses | src/plugins/commuter-clustering/utils/timeFilter.ts:61-66 | the requests plugin's time parser reads HH:MM back as the time rounded down to the minute |
| ClusteringTime.TrimPadded | src/plugins/commuter-clustering/utils/timeFilter.ts:74 | a clock with one space added trims back to itself |
| ClusteringTime.ClockEnds | src/plugins/commuter-clustering/utils/timeFilter.ts:65 | a clock starts and ends with a digit |
| ClusteringTime.ParseTimeTrims | src/plugins/commuter-requests/utils/dataLoader.ts:76 | strings that trim alike parse alike |
| ClusteringTime.SplitSpacedDash | src/plugins/commuter-clustering/utils/timeFilter.ts:74 | "a - b" splits at '-' into "a " and " b" when neither holds a '-' |
| ClusteringTime.ParseTwoSides | src/plugins/commuter-requests/utils/dataLoader.ts:81-86 | a label with two parsing sides parses as their bin |
| ClusteringTime.PaddedParses | src/plugins/commuter-requests/utils/dataLoader.ts:74-78 | a string that trims to a time parses as that time |
| ClusteringTime.DigitNotSpace | src/plugins/commuter-requests/utils/dataLoader.ts:76 | a digit is not whitespace |
| ClusteringTime.PaddedClockParses | src/plugins/commuter-requests/utils/dataLoader.ts:74-78 | a clock padded with one space parses as its seconds |
| ClusteringTime.ClockPairParses | src/plugins/commuter-requests/utils/dataLoader.ts:81-86 | "clock - clock" parses as the two clocks' seconds |
| ClusteringTime.LabelOfEnds | src/plugins/commuter-clustering/utils/timeFilter.ts:71-75 | the label is its two formatted ends around " - " |
| ClusteringTime.BothClocks | src/plugins/commuter-clustering/utils/timeFilter.ts:61-66 | two non-negative times format as the clocks of their whole minutes |
| ClusteringTime.TimeBinLabelParses | src/plugins/commuter-clustering/utils/timeFilter.ts:71-75 | the label getTimeBinLabel builds for non-negative ends parses back through the requests plugin's parseTimeBin as its two ends rounded down to the minute |
| RequestTimeBins.Add | src/plugins/commuter-requests/utils/dataLoader.ts:77 | a sum is a number exactly when both terms are, and is then their sum |
| RequestTimeBins.Scale | src/plugins/commuter-requests/utils/dataLoader.ts:77 | a product with a constant is a number exactly when the factor is |
| RequestTimeBins.SplitAtOccurring | src/plugins/commuter-requests/utils/dataLoader.ts:82 | splitting at a separator that occurs gives at least two parts |
| RequestTimeBins.ParseTime | src/plugins/commuter-requests/utils/dataLoader.ts:74-78 | the time parser throws exactly on the empty string |
| RequestTimeBins.TimeOfParts | src/plugins/commuter-requests/utils/dataLoader.ts:76-77 | hours * 3600 + minutes * 60 is a number exactly when both parts are present and read as numbers |
| RequestTimeBins.ParseTimeBin | src/plugins/commuter-requests/utils/dataLoader.ts:69-93 | an empty label throws "Bin label is required"; a label with '-' throws exactly when one of its first two sides is empty; a single time gets an end binSizeMinutes later |
| RequestTimeBins.StartAt | src/plugins/commuter-requests/utils/dataLoader.ts:102 | the k-th start is k * binSize after the first |
| RequestTimeBins.StartsLength | src/plugins/commuter-requests/utils/dataLoader.ts:102 | the last start is before midnight and one more step would not be |
| RequestTimeBins.BinStarts | src/plugins/commuter-requests/utils/dataLoader.ts:98-116 | there are ceil(1440 / binSize) bins, the k-th starting at minute k * binSize |
| RequestTimeBins.CeilDiv | src/plugins/commuter-requests/utils/dataLoader.ts:102 | c steps of size b are the fewest that reach n exactly when c = ceil(n / b) |
| RequestTimeBins.MulLess | src/plugins/commuter-requests/utils/dataLoader.ts:102 | multiplying by a positive number keeps a strict order |
| RequestTimeBins.GenerateTimeBins | src/plugins/commuter-requests/utils/dataLoader.ts:98-116 | the loop returns one label per start before midnight, each the label of its bin |
| RequestTimeBins.LabelledSnoc | src/plugins/commuter-requests/utils/dataLoader.ts:112 | pushing the next start's label keeps every label matching its start |
| RequestTimeBins.SliceStep | src/plugins/commuter-requests/utils/dataLoader.ts:102 | the remaining starts begin at the next start |
| RequestTimeBins.LabelOfParts | src/plugins/commuter-requests/utils/dataLoader.ts:103-112 | the label spelled from the hours and minutes of start and end is the bin's label |
| RequestTimeBins.MulSucc | src/plugins/commuter-requests/utils/dataLoader.ts:102 | one more step of size b adds b |
| RequestTimeBins.Pad2Number | src/plugins/commuter-requests/utils/dataLoader.ts:76 | Number reads a padded number back |
| RequestTimeBins.DigitsAvoid | src/plugins/commuter-requests/utils/dataLoader.ts:82 | a digit string holds no separator |
| RequestTimeBins.SplitClock | src/plugins/commuter-requests/utils/dataLoader.ts:76 | "digits:digits" splits at ':' into the two digit strings, with nothing to trim |
| RequestTimeBins.TimeOfNumbers | src/plugins/commuter-requests/utils/dataLoader.ts:76-77 | seconds from two parts that read as numbers |
| RequestTimeBins.ClockSeconds | src/plugins/commuter-requests/utils/dataLoader.ts:103-104 | whole hours and remaining minutes make up the minutes |
| RequestTimeBins.ParseTimeParts | src/plugins/commuter-requests/utils/dataLoader.ts:74-78 | parseTime of a clean "hours:minutes" is the seconds its parts give |
| RequestTimeBins.ParseClock | src/plugins/commuter-requests/utils/dataLoader.ts:74-78 | parseTime reads a clock back as its seconds |
| RequestTimeBins.ClockNoDash | src/plugins/commuter-requests/utils/dataLoader.ts:109-110 | a clock is non-empty and holds no '-' |
| RequestTimeBins.ParseBinLabel | src/plugins/commuter-requests/utils/dataLoader.ts:81-86 | the label of the bin starting at minute m parses back to its start and end in seconds |
| RequestTimeBins.ParseGeneratedLabel | src/plugins/commuter-requests/utils/dataLoader.ts:69-116 | every generated label parses back to its start and its start plus the bin size, in seconds |
| RequestFilters.TrailingDigitCount | src/plugins/commuter-requests/utils/filters.ts:30 | the trailing run of decimal digits is maximal |
| RequestFilters.TrailingDigits | src/plugins/commuter-requests/utils/filters.ts:30-31 | a match of /\d+$/ is a non-empty digit string |
| RequestFilters.TrailingDigitCountOf | src/plugins/commuter-requests/utils/filters.ts:30 | a digit run after a non-digit, or after nothing, is the trailing run |
| RequestFilters.TrailingDigitsOf | src/plugins/commuter-requests/utils/filters.ts:30-31 | the pattern matches exactly such a digit run |
| RequestFilters.UnclusteredRejected | src/plugins/commuter-requests/utils/filters.ts:13-23 | a request without the cluster column, or in cluster -1, passes only an empty selection |
| RequestFilters.LabelledClusterSelects | src/plugins/commuter-requests/utils/filters.ts:26-34 | a GeoJSON id such as "origin_55" selects the requests in cluster 55 |
| RequestFilters.NumericClusterSelects | src/plugins/commuter-requests/utils/filters.ts:36-37 | a cluster value other than -1 is selected by itself |
| RequestFilters.SearchBinsFound | src/plugins/commuter-requests/utils/filters.ts:58-65 | the search answers true only through a label that parses and whose bin meets the request |
| RequestFilters.SearchBinsThrows | src/plugins/commuter-requests/utils/filters.ts:58-59 | the search throws only when some label does not parse |
| RequestFilters.SearchBinsParsed | src/plugins/commuter-requests/utils/filters.ts:58-67 | when every label parses, the search answers whether some bin meets the request |
| RequestFilters.SearchOneBin | src/plugins/commuter-requests/utils/filters.ts:58-65 | a single label that parses to a bin selects exactly the requests meeting that bin |
| RequestFilters.EmptyLabelThrows | src/plugins/commuter-requests/utils/filters.ts:59 | an empty label reached first throws "Bin label is required" |
| RequestFilters.GeneratedBinSelects | src/plugins/commuter-requests/utils/filters.ts:48-68 | a generated bin selects the requests whose [treq, treq + travel_time] meets the bin's [start, end] in seconds |
| RequestFilters.ModeFallback | src/plugins/commuter-requests/utils/filters.ts:74-79 | the mode read is main_mode when non-empty, else mode when non-empty, else "unknown" |
| RequestFilters.MissingModeIsUnknown | src/plugins/commuter-requests/utils/filters.ts:77 | a request with neither mode column is filed under "unknown" |
| RequestFilters.NumericRequestId | src/plugins/commuter-requests/utils/filters.ts:85-91 | a numeric request id is looked up by its decimal spelling |
| RequestFilters.Passes | src/plugins/commuter-requests/utils/filters.ts:104-110 | the callback keeps a request exactly when all four filters pass, and throws only after the cluster filter passed and the time-bin filter threw |
| RequestFilters.FilterRequestsKeeps | src/plugins/commuter-requests/utils/filters.ts:96-111 | a result, when there is one, is the kept requests in their order |
| RequestFilters.FilterRequestsThrows | src/plugins/commuter-requests/utils/filters.ts:96-111 | filtering throws only when some selected label does not parse |
| RequestFilters.FilterRequestsParsed | src/plugins/commuter-requests/utils/filters.ts:96-111 | when every selected label parses, filtering does not throw and returns the kept requests in order |
| RequestFilters.EmptySelectionKeepsAll | src/plugins/commuter-requests/utils/filters.ts:96-111 | with all four selections empty every request is returned |
| ClusterFilter.FilterByClusterKeeps | src/plugins/commuter-clustering/utils/clusterFilter.ts:8-23 | a request is kept exactly when String of its cluster value equals String of the requested id |
| ClusterFilter.NumberAndStringIdAgree | src/plugins/commuter-clustering/utils/clusterFilter.ts:20-22 | the number i and the string spelling i select the same requests |
| ClusterFilter.FilterByClusterInOrder | src/plugins/commuter-clustering/utils/clusterFilter.ts:22 | filtering keeps input order: the filter of a concatenation is the concatenation of the filters |
| ClusterFilter.IdsMembers | src/plugins/commuter-clustering/utils/clusterFilter.ts:39-41 | the ids collected are exactly the cluster values other than undefined, null and -1 that some request carries |
| ClusterFilter.CodeUnitTotal | src/plugins/commuter-clustering/utils/clusterFilter.ts:50 | any two strings are comparable in the string order used for sorting |
| ClusterFilter.CodeUnitTransitive | src/plugins/commuter-clustering/utils/clusterFilter.ts:50 | the string order used for sorting is transitive |
| ClusterFilter.StringLePreorder | src/plugins/commuter-clustering/utils/clusterFilter.ts:50 | the string comparator is a total preorder, so the sort is well defined |
| ClusterFilter.NumericLePreorder | src/plugins/commuter-clustering/utils/clusterFilter.ts:48 | the numeric comparator a - b is a total preorder on finite numbers |
| ClusterFilter.GetClusterIdsMembers | src/plugins/commuter-clustering/utils/clusterFilter.ts:28-52 | getClusterIds lists every valid cluster id of the requests exactly once, and nothing else |
| ClusterFilter.SortedNumbersAscend | src/plugins/commuter-clustering/utils/clusterFilter.ts:48 | distinct finite numbers sorted by a - b are strictly ascending |
| ClusterFilter.GetClusterIdsNumeric | src/plugins/commuter-clustering/utils/clusterFilter.ts:45-48 | when every id is a number the result is strictly ascending |
| ClusterFilter.GetClusterIdsByString | src/plugins/commuter-clustering/utils/clusterFilter.ts:49-50 | when some id is not a number the result is ordered by the ids' strings |
| ClusterFilter.CountOfPositive | src/plugins/commuter-clustering/utils/clusterFilter.ts:70-75 | a value has a positive request count exactly when some request carries it |
| ClusterFilter.CountStep | src/plugins/commuter-clustering/utils/clusterFilter.ts:70-75 | one more request raises its own cluster's count by one and leaves every other count alone |
| ClusterFilter.GetClusterRequestCounts | src/plugins/commuter-clustering/utils/clusterFilter.ts:57-78 | the counts map holds every valid id that occurs, mapped to its number of requests, and its keys are the ids getClusterIds lists |
| ClusterFilter.CountedAreListed | src/plugins/commuter-clustering/utils/clusterFilter.ts:28-78 | the ids with a positive count are exactly the ids getClusterIds returns |
| ClusterFilter.CountTotalIsMatches | src/plugins/commuter-clustering/utils/clusterFilter.ts:70-75 | the counts of distinct ids add up to the number of requests whose cluster is one of those ids |
| ClusterFilter.CountsSum | src/plugins/commuter-clustering/utils/clusterFilter.ts:41-75 | the counts of the ids getClusterIds lists add up to the number of requests with a valid cluster id |
| ClusterCentroids.LastCoordsNone | src/plugins/commuter-clustering/utils/dataLoader.ts:111-118 | a cluster id gets no centroid exactly when no centroid feature carries that id |
| ClusterCentroids.LastCoordsAt | src/plugins/commuter-clustering/utils/dataLoader.ts:111-118 | the last centroid carrying an id gives its coordinates, since a later set on the map overwrites an earlier one |
| ClusterCentroids.BuildCentroidMap | src/plugins/commuter-clustering/utils/dataLoader.ts:111-118 | the centroid map holds each id some centroid carries, mapped to the coordinates of the last such centroid |
| ClusterCentroids.MergeCentroids | src/plugins/commuter-clustering/utils/dataLoader.ts:110-133 | one boundary out per boundary in, in order, geometry and properties unchanged, centroid set to the matching centroid's coordinates or to none |
| DataTables.FindByIdNone | src/plugins/interactive-dashboard/managers/DataTableManager.ts:60-62 | getRowById finds nothing exactly when no row's id strictly equals the id, so NaN is never found |
| DataTables.FindByIdFirst | src/plugins/interactive-dashboard/managers/DataTableManager.ts:60-62 | the row found is the first row whose id strictly equals the id |
| DataTables.FindByIdFound | src/plugins/interactive-dashboard/managers/DataTableManager.ts:60-62 | a row found is a row of the table whose id strictly equals the id |
| DataTables.RowsWithIdsKeeps | src/plugins/interactive-dashboard/managers/DataTableManager.ts:67-69 | getRowsByIds keeps exactly the rows whose id is in the set, in table order |
| JsValues.Column | src/plugins/interactive-dashboard/managers/DataTableManager.ts:75 | the mapped column has one entry per row, the row's value in that column |
| DataTables.ColumnValuesDistinct | src/plugins/interactive-dashboard/managers/DataTableManager.ts:74-76 | getColumnValues lists each value the column takes exactly once, in order of first occurrence |
| DataTables.NewDataTableManager | src/plugins/interactive-dashboard/managers/DataTableManager.ts:23-26 | a new manager has no rows and takes its id column from the configuration |
| DataTables.GetRowById | src/plugins/interactive-dashboard/managers/DataTableManager.ts:60-62 | the row returned is a row of the table with a strictly equal id |
| DataTables.RowByIdIsSelected | src/plugins/interactive-dashboard/managers/DataTableManager.ts:60-76 | a row found by id is among the rows selected by that id, and the id is among the id column's values |
| LinkedTables.FilterByParentKeeps | src/plugins/interactive-dashboard/managers/LinkedTableManager.ts:113-124 | an empty parent selection shows every row; otherwise exactly the rows whose link column holds a selected id, in order |
| LinkedTables.Deliveries | src/plugins/interactive-dashboard/managers/LinkedTableManager.ts:164-166 | each listener is called once, in registration order, with the filtered rows |
| LinkedTables.LinkedTableManager.constructor | src/plugins/interactive-dashboard/managers/LinkedTableManager.ts:36-40 | a new manager has no rows, no parent selection and no listeners, and takes its id and link columns from the configuration |
| LinkedTables.LinkedTableManager.Load | src/plugins/interactive-dashboard/managers/LinkedTableManager.ts:54-58 | after loading, the data is the parsed rows and the visible rows are refiltered by the current parent selection, with no listener call |
| LinkedTables.LinkedTableManager.SetParentSelection | src/plugins/interactive-dashboard/managers/LinkedTableManager.ts:104-108 | the selection is stored, the visible rows are refiltered and every listener then receives the new visible rows |
| LinkedTables.LinkedTableManager.ApplyFilter | src/plugins/interactive-dashboard/managers/LinkedTableManager.ts:113-124 | the visible rows become the parent-filtered data and nothing else changes |
| LinkedTables.LinkedTableManager.NotifyListeners | src/plugins/interactive-dashboard/managers/LinkedTableManager.ts:164-166 | the listener calls made are one per listener with the visible rows, and no table state changes |
| LinkedTables.LinkedTableManager.GetRowById | src/plugins/interactive-dashboard/managers/LinkedTableManager.ts:129-131 | the row returned is a visible row whose id strictly equals the id |
| LinkedTables.LinkedTableManager.AddListener | src/plugins/interactive-dashboard/managers/LinkedTableManager.ts:150-152 | the listener is appended to the registrations |
| LinkedTables.LinkedTableManager.RemoveListener | src/plugins/interactive-dashboard/managers/LinkedTableManager.ts:157-159 | every registration of the callback is dropped and the others stay, in order |
| LinkedTables.VisibleRowsAreRows | src/plugins/interactive-dashboard/managers/LinkedTableManager.ts:113-124 | the visible rows are always rows of the table |
| LinkedTables.QueryAfterParentFilter | src/plugins/interactive-dashboard/managers/LinkedTableManager.ts:113-138 | for any parent selection, empty or not, querying the visible rows by id equals parent-filtering the rows selected by id |

## Left out

- Loaders and I/O are not modelled: CSV and GeoJSON loading, the file service, and `loadData` in both table managers. `LinkedTables.LinkedTableManager.Load` models only the completion step of `loadData`.
- The floating-point kernels (`sampleCorrelation`, `normalCDF`, `tCDF`, `sqrt`) are uninterpreted functions passed in as `Kernels`. `sampleCorrelation` receives the kept samples as they are, as the source passes them. Only the structure around the kernels is modelled: pairing, guards, clamp, the p-value formula, significance and matrix shape.
- `hslToHex` and `getHashColor` are not modelled: they are floating-point colour conversion.
- The style manager's environment code is not modelled: the singleton `getInstance`, `initialize` and `destroy`, store syncing and subscription, CSS variable injection and the DOM. The model is a plain constructed object.
- The wrapper helpers in the dashboard `colorSchemes.ts` only forward to the style manager, so they are not modelled separately.
- Logging is not modelled: `console` output and `debug.ts`.
- Type-only and UI files hold no logic and are not modelled.
- Collections are values, not shared references. Reference aliasing is not modelled:
  - the filter manager stores the caller's set, and its getters return live collections;
  - `toggleFilterValue` edits the stored set in place.
- Numbers are integers or NaN. Fractions, `-0` and `Infinity` are not modelled. The exceptions are the statistics and the commuter-clustering gradient, which use reals.
- `toLowerCase` is modelled for ASCII letters only; `trim` strips the full ECMAScript white-space and line-terminator set (`JsText.IsWhiteSpace`).
- `localeCompare` is modelled as code-unit order.
- `parseInt` and `Number` on strings are modelled for decimal (and, in the colour parsers, hexadecimal) digit strings.
- The string hash of `getCategoryColor` works on UTF-16 code units as characters. Characters outside the Basic Multilingual Plane are not split into surrogate pairs.
- Listeners and observers are not arbitrary code. Each call is a log entry, so re-entrant callbacks are not modelled.
- Table lookups by key do not see inherited object properties. For example, a path segment such as `toString` does not find a prototype member, and the `in` test on `chart.bar` sees only the table's own keys.
- `null` or `undefined` passed where the source expects a string is not modelled, except where the source guards against it.
- Table configuration column display options are not modelled.
- ClusteringTime.CreateTimeBins requires a positive bin size: with zero or a negative size the source loop never terminates.
- RequestTimeBins.GenerateTimeBins requires a positive bin size: with zero or a negative size the source loop never terminates.
- ClusteringColors.GradientColor requires min < max. With min = max the source divides 0 by 0 and returns NaN channels. The callers inside the plugin always pass fixed ranges with min < max.
- ClusteringColors.GetClusterColor returns `None` where the source reads past the palette (a negative cluster id). The plain lookup is then `undefined` and the hull lookups throw.
- Styling.StyleManager.GetCategoricalColorRgba returns `None` where the source throws on an undefined palette entry (a negative index).
- TrackAllocator.OptimalForPositiveDurations proves that the lane count is optimal only for items of positive duration. The source claims optimality outright, but a zero-length item strictly inside another item's span opens a second lane, although no two items are ever active together. `TrackAllocator.ZeroDurationExtraTrack` exhibits this.
- TrackAllocator.AllocateTracks keeps the lane end times in a sequence that the method reassigns, rather than an array updated in place.
- Default arguments are explicit parameters, and a caller that omits one passes the default: `binSize` 900 of `createTimeBins` (`ClusteringTime.CreateTimeBins`), `alpha` 255 of the hex and RGBA colour helpers and of `getColorRGBA` and `getCategoricalColorRGBA`, and `alpha` 0.05 of `calculateCorrelationWithPValue` (`Statistics.DefaultAlpha`).
- ClusterFilter.GetClusterRequestCounts returns a map: its key set is the set of ids `getClusterIds` lists, but the first-occurrence order in which the source's `Map` holds them is not modelled.
- The plain getters are modelled without a row of their own: `getMode`, `getColor` and `getColorRGBA` of the style manager, and `getConfig`, `getIdColumn`, `getLinkColumn`, `getData`, `getAllData`, `getFilteredData`, `getRowsByIds` and `getColumnValues` of the table managers. Each returns a field or forwards to a function whose lemmas have rows above: `getColor` and `getColorRGBA` to `Styling.Resolve` and `Styling.ResolveRgba` (rows `Styling.ResolveUndefined`, `Styling.ResolveRgbaBytes` and their neighbours), `getRowsByIds` and `getColumnValues` to `DataTables.RowsWithIds` and `DataTables.ColumnValues` (rows `DataTables.RowsWithIdsKeeps`, `DataTables.ColumnValuesDistinct`), and the linked table's filtered data to `LinkedTables.FilterByParent` (row `LinkedTables.FilterByParentKeeps`).
