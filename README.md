# Portal and IFC viewer — a Dafny model

This project models the decision logic of a project portal written in
TypeScript and React. The portal publishes a catalogue of 3D models,
dashboards, documents and notebooks, and it embeds a browser viewer for IFC
building models.

The model covers these parts of the program:

- **The viewer's bookkeeping.**
  - The global model store: an insertion-ordered map from model id to model record, plus a selection slot.
  - The viewer component's own copy of that map, with its scene and highlight state.
  - The click resolver, which takes the first visible model hit by the ray.
  - Property-set extraction from IFC element data (IfcRelDefinesByProperties → IfcPropertySet → IfcPropertySingleValue, ISO 16739-1).
  - Element counting, visibility toggling, removal, loading and the download file name.
- **The classification tree.** Element references are resolved through an ordered fallback. There is one group per model, with name-sorted, non-empty category items. The tree also has per-item visibility toggles and a "show all" reset.
- **The section tool and its wheel adapter.** This is a small state machine over axis, value, bounds and active flag. It covers the per-axis default value, the clipping plane, the helper plane's geometry and the camera placement. The wheel step is 1% of the extent along the axis and is clamped to the bounds.
- **Portal utilities.**
  - Accent- and case-insensitive search over the catalogue (case mapping and decomposition of the Latin-1 letters), tagged by kind and sorted by name.
  - The grouping of search results by type.
  - Dotted-path configuration lookup and team ordering.
  - Catalogue filters.
  - The open-project list of the sidebar.
  - The Speckle URL decoration.
  - The notebook title rule.

The 3D engine is not modelled. Its calls (raycast, item data, property
data, categories, items of a category, loading, bounding box) are fields of an
`Engine` value: total functions that return `None` where the engine call throws.
Component state that the source updates in place is a Dafny `class`:
- `ModelStore.Store` for the global store;
- `IfcViewer.Viewer` for the viewer component;
- `ClassificationTree.Tree` for the tree;
- `SectionGizmo.Gizmo` for the section tool.

Each method states the whole new state. The pure helpers are functions with lemmas. JavaScript values that
configuration lookups walk over are a `Json` datatype. A `Map` is a sequence of
key/value pairs with unique keys (`OrderedMap`).

Four behaviours of the code that are easy to misread:
- **Camera.** The section tool moves the camera only when the tool is activated, not when the axis changes (components/ifc/section-gizmo.tsx:109-141, 282-300).
- **Failed property fetch.** When fetching an element's properties fails after a hit, the previous name and properties stay on screen; they are not cleared (components/ifc/ifc-viewer.tsx:407-418, 445-495).
- **Property access on non-objects.** `"value" in x` throws a TypeError when `x` is not an object. Extraction of that element's properties then fails as a whole (`None`); it does not skip the entry (components/ifc/ifc-viewer.tsx:466-489).
- **Search by type.** `searchResourcesByType` has no blank-query guard. An empty query therefore returns every resource with at least one non-empty searched field (utils/search-utils.ts:22-27, 109-122).

## Model

| member | source | states |
|---|---|---|
| ModelStore.Store.constructor | lib/model-store.ts:2-6 | a new store has no models, no fragments and an empty selection |
| ModelStore.Store.AddModel | lib/model-store.ts:8-10 | afterwards the id maps to the model, an existing entry is overwritten, every other id keeps its entry and the selection is unchanged |
| ModelStore.Store.RemoveModel | lib/model-store.ts:12-18 | the id is gone and every other entry is unchanged; an absent id leaves the map unchanged; the selection is cleared (both fields) exactly when the removed id was the selected model |
| ModelStore.Store.GetModel | lib/model-store.ts:20-22 | returns a model exactly when the id is a key, and then the stored one |
| ModelStore.Store.GetAllModels | lib/model-store.ts:24-26 | returns the map itself, whose keys are unique |
| ModelStore.Store.Reset | lib/model-store.ts:28-33 | empties the map and clears fragments and both selection fields |
| IfcViewer.PropertiesSnoc | components/ifc/ifc-viewer.tsx:475-486 | `PropertiesOf`: the property walk processes one more property by appending it if it survives, and fails as a whole if reading it throws |
| IfcViewer.PropertySetsSnoc | components/ifc/ifc-viewer.tsx:468-489 | `PropertySetsOf`: the property-set walk processes one more set in the same way |
| IfcViewer.PropertiesAppend | components/ifc/ifc-viewer.tsx:475-486 | extracting properties from a concatenation concatenates the extractions (order preserved, failure propagates) |
| IfcViewer.PropertySetsAppend | components/ifc/ifc-viewer.tsx:468-489 | the same for property sets |
| IfcViewer.PropertyKept | components/ifc/ifc-viewer.tsx:476-484 | a property is skipped exactly when it lacks a name value or a nominal value, or its name is falsy or its value undefined; otherwise it becomes (name, value) |
| IfcViewer.PropertiesWellFormed | components/ifc/ifc-viewer.tsx:476-484 | every extracted property has a truthy name and a defined value |
| IfcViewer.PropertySetsWellFormed | components/ifc/ifc-viewer.tsx:468-489 | every extracted set has at least one property, and all of them are well formed |
| IfcViewer.SkippedPropertySet | components/ifc/ifc-viewer.tsx:469-473 | a set without a name value or without a HasProperties array contributes nothing |
| IfcViewer.UnnamedPropertySetThrows | components/ifc/ifc-viewer.tsx:466-489 | a set whose Name is not an object makes the whole extraction fail |
| IfcViewer.ExtractPropertySets | components/ifc/ifc-viewer.tsx:466-489 | the loop computes the property-set extraction function |
| IfcViewer.GetElementInfo | components/ifc/ifc-viewer.tsx:445-495 | `ElementInfoOf` and `ElementName`: a name exists exactly when the item data was read; it is the Name value, or "Elemento sconosciuto" when Name has no value; properties exist only with a name and property data, and each set is non-empty |
| IfcViewer.FirstHitIsFirst | components/ifc/ifc-viewer.tsx:371-391 | `FirstHit`: the scan finds nothing exactly when no model is hit; otherwise it returns the first hit model in map order, with the hit's local id |
| IfcViewer.HiddenModelsIgnored | components/ifc/ifc-viewer.tsx:373-376 | raycast results on hidden models (or their errors) cannot change the outcome |
| IfcViewer.FindFirstHit | components/ifc/ifc-viewer.tsx:371-391 | the loop returns the first hit as specified |
| IfcViewer.FirstHitIsKey | components/ifc/ifc-viewer.tsx:371-391 | the model id of a hit is a key of the map |
| IfcViewer.CountFromBounded | components/ifc/ifc-viewer.tsx:278-287 | `ElementCount`: the element count never exceeds the sum of the category sizes, and equals it when no category read fails |
| IfcViewer.CountElements | components/ifc/ifc-viewer.tsx:278-287 | the counting loop computes the element count `ElementCount`, stopping at the first category whose read fails and keeping the count so far |
| IfcViewer.LoadAllKeeps | components/ifc/ifc-viewer.tsx:220-241 | `LoadAll`: after loading all configured models, every model already present and every visible configuration that loads is in the map |
| IfcViewer.StaleSnapshotDropsFirstModel | components/ifc/ifc-viewer.tsx:220-241 | `LoadAllAsWritten` against `LoadAll`: with the render-time map copied by each load, the first of two loaded models is missing afterwards, while the corrected threading keeps both |
| IfcViewer.TotalElementsDelete | components/ifc/ifc-viewer.tsx:532-585 | `TotalElements`: removing a model lowers the total element count by exactly its count |
| IfcViewer.VisibleIdsMember | components/ifc/ifc-viewer.tsx:498-530 | `VisibleIds`: the scene holds exactly the ids of visible models |
| IfcViewer.ToggleFlipsOnlyOne | components/ifc/ifc-viewer.tsx:498-522 | `ToggledVisibility`: toggling flips only that record's visible flag and leaves every other record and the key order unchanged |
| IfcViewer.ToggleTwiceRestores | components/ifc/ifc-viewer.tsx:498-522 | toggling the same id twice restores the map |
| IfcViewer.DownloadFileNameRule | components/ifc/ifc-viewer.tsx:587-604 | `DownloadFileName`: fragment models keep their name; an IFC name without ".ifc" is kept; "base.ifc" becomes "base.frag" |
| IfcViewer.Viewer.constructor | components/ifc/ifc-viewer.tsx:53-75 | the viewer starts with no models, no selection, no element information and no highlight, over an empty store |
| IfcViewer.Viewer.SetSelection | components/ifc/ifc-viewer.tsx:91-102 | the component's selection and the store's selection are both set together; nothing else changes |
| IfcViewer.Viewer.ResetHighlight | components/ifc/ifc-viewer.tsx:393-405 | clears the highlight and keeps the selection and models |
| IfcViewer.Viewer.Click | components/ifc/ifc-viewer.tsx:359-424 | on a hit, both selection fields become the hit and only it is highlighted, and the name and properties come from the element (or stay if their fetch fails); on a miss, the selection, name, properties and highlight are all cleared |
| IfcViewer.Viewer.ToggleModelVisibility | components/ifc/ifc-viewer.tsx:498-530 | the map becomes the toggled map, the scene gains or loses that id, an unknown id changes nothing, and the selection is untouched |
| IfcViewer.Viewer.RemoveModel | components/ifc/ifc-viewer.tsx:532-585 | deletes exactly that id from the map and the scene; clears selection, name, properties and highlight exactly when the selected model was removed; modelLoaded is whether models remain; an absent id changes nothing |
| IfcViewer.Viewer.LoadConfiguredModel | components/ifc/ifc-viewer.tsx:244-341 | succeeds exactly when the engine loads it; the map then holds its record with the counted elements and the model is in the scene; a failure changes nothing visible |
| IfcViewer.Viewer.LoadConfiguredModels | components/ifc/ifc-viewer.tsx:220-241 | every visible configuration that loads ends up in the map (corrected: the map is threaded from load to load) |
| IfcViewer.Viewer.LoadSpecificModel | components/ifc/ifc-viewer.tsx:607-617 | an id already in the map is refused; otherwise it loads like a configured model |
| IfcViewer.Viewer.DownloadModel | components/ifc/ifc-viewer.tsx:587-604 | a file exists exactly when the id is a key; it holds the download name and the fragment bytes |
| ClassificationTree.ResolveOrder | components/ifc/classification-tree.tsx:49-68 | `ResolveLocalId`: resolution tries a number or getLocalId() first, then localId, then id, otherwise null |
| ClassificationTree.ResolvedIdsMembers | components/ifc/classification-tree.tsx:100-106 | `ResolvedIds`: the id list holds exactly the non-null resolutions and is no longer than the item list |
| ClassificationTree.CategoryItemsFresh | components/ifc/classification-tree.tsx:101-119 | `CategoryItems`: every created item is visible, belongs to its model, has count equal to its number of ids and at least one id, and names one of the model's categories |
| ClassificationTree.CategoryItemsAppend | components/ifc/classification-tree.tsx:87-122 | categories are processed independently, in order; a failing category is dropped and the rest continue |
| ClassificationTree.ByNameOrders | components/ifc/classification-tree.tsx:126 | the name comparison is a total preorder |
| ClassificationTree.GroupOfSpec | components/ifc/classification-tree.tsx:79-131 | `GroupOf`: a group is named "model_" + id, is expanded, is non-empty, has its items sorted by name and is a permutation of the created items; it is omitted exactly when categories fail or no item was created |
| ClassificationTree.GroupsOfSpec | components/ifc/classification-tree.tsx:71-143 | `GroupsOf`: there is at most one group per model, each non-empty and built from one model |
| ClassificationTree.GroupsOfAppend | components/ifc/classification-tree.tsx:71-143 | groups follow model-map order, one model at a time |
| ClassificationTree.FlipItemSpec | components/ifc/classification-tree.tsx:175-181 | `FlipItem`: only that item's visible flag flips; every other item and group is unchanged; flipping twice restores |
| ClassificationTree.AllVisible | components/ifc/classification-tree.tsx:229-236 | every item becomes visible and nothing else about the groups changes |
| ClassificationTree.AllVisibleSpec | components/ifc/classification-tree.tsx:229-236 | afterwards every item is visible, and applying it again changes nothing |
| ClassificationTree.AllIdsMembers | components/ifc/classification-tree.tsx:210-216 | `AllIds`: the concatenated ids hold exactly the ids of the group's items |
| ClassificationTree.ShowAllCallsSpec | components/ifc/classification-tree.tsx:205-236 | `ShowAllCalls`: every call is setVisible(true) over all ids of a model's group, never with an empty id list, and every model whose group has ids gets its call |
| ClassificationTree.ShowAllCallsAppend | components/ifc/classification-tree.tsx:205-222 | the calls follow map order: those for `a + b` are those for `a`, then those for `b` |
| ClassificationTree.ShowAllCallsOne | components/ifc/classification-tree.tsx:205-222 | one model gets exactly one call when its group has ids (`ShownIds`), and none otherwise |
| ClassificationTree.Tree.constructor | components/ifc/classification-tree.tsx:36 | the tree starts without groups |
| ClassificationTree.Tree.LoadClassifications | components/ifc/classification-tree.tsx:71-143 | the groups become those built from the models |
| ClassificationTree.Tree.ToggleItemVisibility | components/ifc/classification-tree.tsx:146-188 | with fragments, a valid index, non-empty ids and a known model, it flips that item and issues one visibility call with the new value over exactly its ids, then one update; otherwise nothing changes |
| ClassificationTree.Tree.ToggleGroupExpansion | components/ifc/classification-tree.tsx:191-195 | flips only that group's expanded flag |
| ClassificationTree.Tree.ShowAll | components/ifc/classification-tree.tsx:198-242 | with fragments, it issues the per-model calls, then one update, and makes every item visible; without fragments nothing changes |
| Geometry.Shift | components/ifc/section-gizmo.tsx:130-139 | moves one component by the offset and keeps the others |
| Geometry.BoundsOfSpec | components/ifc/section-gizmo.tsx:72-106 | `BoundsOf`: for a non-empty box the centre lies between the corners, half the size from each; an empty box has zero size and centre |
| MouseWheel.StepSpec | components/ifc/mouse-wheel-handler.tsx:36-44 | `Step`: the step is 1% of the extent along the axis, negative for deltaY > 0 and positive otherwise (0 included) |
| MouseWheel.ClampSpec | components/ifc/mouse-wheel-handler.tsx:46-61 | `Clamp`: the clamp stays in the interval, is the identity inside it and gives the nearer bound outside |
| MouseWheel.ClampIdempotent | components/ifc/mouse-wheel-handler.tsx:46-61 | clamping twice is clamping once |
| MouseWheel.WheelValueInBounds | components/ifc/mouse-wheel-handler.tsx:61-64 | `WheelValue`: when min <= max along the axis, the emitted value lies within them |
| MouseWheel.WheelValueDirection | components/ifc/mouse-wheel-handler.tsx:36-64 | scrolling down never raises the value and scrolling up never lowers it |
| MouseWheel.OnWheelSpec | components/ifc/mouse-wheel-handler.tsx:29 | `OnWheel`: a value is emitted exactly when active, with a world, bounds and a current value, and it is in bounds |
| SectionGizmo.DefaultValueWithinBounds | components/ifc/section-gizmo.tsx:93-99 | `DefaultValue`: the default value (centre for x and z, top for y) lies within the bounds |
| SectionGizmo.SectionPlaneKeeps | components/ifc/section-gizmo.tsx:147-157 | `SectionPlane`: the plane keeps exactly the points at or below the value along the axis |
| SectionGizmo.SectionPlaneNormal | components/ifc/section-gizmo.tsx:147-156 | the plane's normal is the negated axis unit vector |
| SectionGizmo.HelperPlacement | components/ifc/section-gizmo.tsx:204-222 | `HelperOf`: the helper sits at value + 0.01 along the axis and at the centre across it, and measures 1.5 times the two cross extents |
| SectionGizmo.HelperFacesAxis | components/ifc/section-gizmo.tsx:211-222 | the rotated helper faces along the section axis |
| SectionGizmo.SliderRange | components/ifc/section-gizmo.tsx:303-322 | `MinValue`, `MaxValue` and `CurrentValue`: min and max are the bounds along the axis, or 0 without bounds; the current value is 0 without bounds or value, and within range for the default value |
| SectionGizmo.RemoveHelper | components/ifc/section-gizmo.tsx:194-197 | the old helper is removed from the scene and nothing is added |
| SectionGizmo.Gizmo.constructor | components/ifc/section-gizmo.tsx:20-31 | the tool starts inactive on the y axis, with no value, bounds, plane, helper or camera change |
| SectionGizmo.Gizmo.CalculateModelBounds | components/ifc/section-gizmo.tsx:72-106 | stores the box's bounds and the default value for the current axis |
| SectionGizmo.Gizmo.CreateSectionHelper | components/ifc/section-gizmo.tsx:190-244 | with bounds, the scene holds exactly one helper, placed for the value and axis; without bounds nothing changes |
| SectionGizmo.Gizmo.UpdateSectionPlane | components/ifc/section-gizmo.tsx:144-187 | with bounds, the plane is the section plane, it is the only renderer and material plane, local clipping is on, the helper is recreated and one update follows |
| SectionGizmo.Gizmo.ClearSection | components/ifc/section-gizmo.tsx:247-279 | clears the clipping planes, disables local clipping, removes the helper and nulls the plane |
| SectionGizmo.Gizmo.SetupSectionMode | components/ifc/section-gizmo.tsx:109-141 | resets the value to the axis default, installs the plane and helper, and places the camera 1.5 sizes from the centre along the axis, looking at it (camera from `CameraOf`) |
| SectionGizmo.Gizmo.HandleAxisChange | components/ifc/section-gizmo.tsx:282-300 | the same axis changes nothing; a new axis takes its default value when bounds exist |
| SectionGizmo.Gizmo.SetSectionValue | components/ifc/section-gizmo.tsx:393 | the slider sets the value and nothing else |
| SectionGizmo.Gizmo.ToggleActive | components/ifc/section-gizmo.tsx:338-341 | the header button flips the active flag only |
| SectionGizmo.Gizmo.ActivateOrReset | components/ifc/section-gizmo.tsx:409-415 | deactivating clears the section; activating only sets the flag |
| SectionGizmo.Gizmo.ActivationEffect | components/ifc/section-gizmo.tsx:42-52 | with bounds, an active tool is set up and an inactive one is cleared |
| SectionGizmo.Gizmo.PlaneEffect | components/ifc/section-gizmo.tsx:55-59 | while active with value and bounds, the plane and helper follow the value and axis |
| Portal.Section | utils/config-utils.ts:67-69 | a missing section reads as the empty list |
| Portal.KindNameInjective | utils/search-utils.ts:29-33 | distinct kinds have distinct names |
| SearchUtils.StripMarks | utils/search-utils.ts:4-10 | the result has no combining mark in U+0300–U+036F and only characters of the input |
| SearchUtils.StripMarksUnmarked | utils/search-utils.ts:4-10 | text without marks is unchanged |
| SearchUtils.Decomposition | utils/search-utils.ts:4-10 | a Latin-1 letter with a diacritic splits into an ASCII base letter of the same case and a mark in U+0300–U+036F; ASCII letters and marks do not split |
| SearchUtils.Decompose | utils/search-utils.ts:4-10 | `normalize("NFD")`: the result holds no composed letter, and decomposing text without capitals adds none |
| SearchUtils.Normalize | utils/search-utils.ts:4-10 | the result has no capital, no mark and no composed letter, and is trimmed |
| SearchUtils.NormalizeFixes | utils/search-utils.ts:4-10 | normalized text is a fixed point |
| SearchUtils.NormalizeIdempotent | utils/search-utils.ts:4-10 | normalizing twice is normalizing once |
| SearchUtils.NormalizeIgnoresCase | utils/search-utils.ts:4-10 | lowercasing first does not change the normal form |
| SearchUtils.NormalizeIgnoresMark | utils/search-utils.ts:4-10 | inserting a combining mark anywhere does not change the normal form |
| SearchUtils.NormalizeIgnoresAccent | utils/search-utils.ts:4-10 | replacing a composed letter by its base letter (`BaseLetter`) does not change the normal form |
| SearchUtils.TextContainsIff | utils/search-utils.ts:13-16 | `TextContains`: false for missing or empty text, otherwise the normalized query occurs in the normalized text |
| SearchUtils.TextContainsIgnoresCase | utils/search-utils.ts:13-16 | the case of the text or the query does not matter |
| SearchUtils.TextContainsIgnoresAccent | utils/search-utils.ts:13-16 | a composed letter in the text or the query matches as its base letter, so "Città" and "citta" find each other |
| SearchUtils.TextContainsIgnoresMark | utils/search-utils.ts:13-16 | a combining mark in the query, or in a text that has other characters, does not change the match |
| SearchUtils.BlankQueryMatchesAll | utils/search-utils.ts:13-16 | a query that normalizes to empty matches every non-empty text |
| SearchUtils.SomeFieldIff | utils/search-utils.ts:22-27 | the disjunction over a resource's fields holds exactly when one of its searched fields satisfies it |
| SearchUtils.MatchesIff | utils/search-utils.ts:22-27 | `Matches`: a resource matches exactly when name, description, a tag or category contains the query, plus type for documents and author for notebooks |
| SearchUtils.Tagged | utils/search-utils.ts:29-33 | the result keeps the resource's id and name and carries its kind |
| SearchUtils.TaggedUrlInjective | utils/search-utils.ts:29-33 | the generated url "/<kind>s?id=<id>" determines the kind and id |
| SearchUtils.SearchKind | utils/search-utils.ts:19-91 | per-kind results are no more than the resources and all carry that kind |
| SearchUtils.SearchKindAppend | utils/search-utils.ts:19-91 | per-kind search keeps config order: it distributes over concatenation |
| SearchUtils.SearchKindMembers | utils/search-utils.ts:19-91 | `SearchKind`: a result is exactly a matching resource tagged with the kind |
| SearchUtils.ByNameOrders | utils/search-utils.ts:105 | the name comparison is a total preorder |
| SearchUtils.SearchResourcesBlank | utils/search-utils.ts:95 | a blank query gives no results |
| SearchUtils.SearchResourcesSpec | utils/search-utils.ts:94-106 | `SearchResources`: otherwise the results are a permutation of all per-kind hits, sorted by name |
| SearchUtils.SearchResourcesTies | utils/search-utils.ts:97-105 | results with equal names keep their model, dashboard, document, notebook order |
| SearchUtils.ByTypeWithinAll | utils/search-utils.ts:109-122 | a by-type result is also a global result, and only the four section names return anything |
| SearchUtils.ByTypeDispatch | utils/search-utils.ts:109-122 | `SearchResourcesByType`: each kind's section name selects exactly that kind's search |
| SearchUtils.SearchSectionMembers | utils/search-utils.ts:19-91 | `SearchSection`: every matching resource of a section is found by that section's search |
| SearchUtils.ByTypeEmptyQuery | utils/search-utils.ts:109-122 | with an empty query, every named resource of the section is returned |
| ConfigUtils.ArrayIndex | utils/config-utils.ts:5-18 | only non-empty digit strings index an array |
| ConfigUtils.ResolveAppend | utils/config-utils.ts:9-15 | following a path is following its prefix and then the rest |
| ConfigUtils.ConfigValue | utils/config-utils.ts:5-18 | undefined is returned only if it was the default |
| ConfigUtils.GetConfigValue | utils/config-utils.ts:5-18 | the loop computes the path lookup |
| ConfigUtils.ConfigValueKey | utils/config-utils.ts:5-18 | `ConfigValue`: a single key gives the property if present and defined, else the default |
| ConfigUtils.ConfigValuePath | utils/config-utils.ts:9-15 | a dotted path descends one key, or gives the default when the key is missing |
| ConfigUtils.FeatureEnabledIff | utils/config-utils.ts:36-38 | `IsFeatureEnabled`: a feature is enabled exactly when features.<name> exists and is truthy |
| ConfigUtils.ResourcesByCategoryIff | utils/config-utils.ts:41-44 | `ResourcesByCategory`: keeps exactly the section's resources of that category |
| ConfigUtils.ResourcesByTagIff | utils/config-utils.ts:46-49 | `ResourcesByTag`: keeps exactly the section's resources whose tags include the tag |
| ConfigUtils.ResourceCountIsLength | utils/config-utils.ts:62-69 | `ResourceCount`: the count is the length of the section, and 0 for a missing one |
| ConfigUtils.OrderKey | utils/config-utils.ts:52-54 | the key is the order, or 999 when it is missing or 0 |
| ConfigUtils.OrderedTeamSpec | utils/config-utils.ts:52-54 | `OrderedTeam`: the ordered team is a permutation of the team with non-decreasing keys |
| ConfigUtils.OrderedTeamStable | utils/config-utils.ts:52-54 | members with equal keys keep their original order |
| ConfigUtils.GalleryImagesSpec | utils/config-utils.ts:72-75 | `GalleryImages`: featured-only keeps exactly the featured images; otherwise all images are returned |
| ConfigUtils.MainMediaType | utils/config-utils.ts:90-92 | "video" exactly when the type is "video", else "image" |
| SearchResults.GroupByType | components/search/search-results.tsx:59-68 | the reduce loop computes the grouping function |
| SearchResults.GroupedBucket | components/search/search-results.tsx:59-68 | `Grouped`: the bucket of a type is exactly the results of that type in their original order, absent if none |
| SearchResults.InOneBucket | components/search/search-results.tsx:59-68 | a result is in a bucket exactly when it has that bucket's type |
| SearchResults.Distinct | components/search/search-results.tsx:106 | first occurrences: the same members without duplicates |
| SearchResults.GroupedKeys | components/search/search-results.tsx:59-106 | buckets appear in first-occurrence order of their type |
| SearchResults.TotalSizeSet | components/search/search-results.tsx:103 | replacing a bucket changes the total by the size difference |
| SearchResults.GroupedSize | components/search/search-results.tsx:103 | the bucket sizes sum to the number of results |
| SearchResults.TypeLabelDistinct | components/search/search-results.tsx:85-98 | `TypeLabel`: the four kinds get distinct labels, none of them "Risorsa" |
| SearchResults.HrefOfTagged | components/search/search-results.tsx:113 | `Href`: documents link to their original url when non-empty, everything else to its page url |
| SearchResults.ResultsFor | components/search/search-results.tsx:18-33 | an empty query yields no results |
| ProjectSidebar.ToggleMembership | components/project-sidebar.tsx:62-64 | `ToggleProject`: the id is present afterwards exactly when it was absent; other ids keep their membership |
| ProjectSidebar.ToggleKeepsOthers | components/project-sidebar.tsx:62-64 | the other ids and their order are unchanged |
| ProjectSidebar.ToggleTwice | components/project-sidebar.tsx:62-64 | toggling twice restores membership, and restores the list when the id was absent |
| ProjectSidebar.ToggleNoDup | components/project-sidebar.tsx:62-64 | a duplicate-free list stays duplicate-free |
| ProjectSidebar.TogglesNoDup | components/project-sidebar.tsx:62-64 | `Toggles`: any sequence of toggles keeps a duplicate-free list duplicate-free |
| ProjectSidebar.OpenListNoDup | components/project-sidebar.tsx:54-64 | from the initial open list `[1]`, no sequence of toggles ever lists a project twice |
| ProjectSidebar.FilterProjectsIff | components/project-sidebar.tsx:57-59 | `FilterProjects`: keeps exactly the projects whose lowercased name contains the lowercased query |
| ProjectSidebar.EmptyQueryListsAll | components/project-sidebar.tsx:57-59 | an empty query keeps every project |
| ModelViewer.CleanUrlSpec | components/models/model-viewer.tsx:24-42 | `CleanUrl`: the url changes exactly for a Speckle viewer (the default type) on a speckle.xyz url, and then the original is a prefix followed by the separator and the fixed parameters |
| ModelViewer.QueryStartsAfterUrl | components/models/model-viewer.tsx:38-39 | without a "?", the added "?" starts the query right after the original url |
| ModelViewer.QueryKeptInPlace | components/models/model-viewer.tsx:38-39 | with a "?", the first "?" stays where it was |
| NotebookThumbnail.ShortPathGivesDefault | components/notebooks/notebook-thumbnail-generator.tsx:29-38 | `NotebookName`: a missing url or a path with fewer than two "/" gives "Notebook ML" |
| NotebookThumbnail.NameIsLastSegment | components/notebooks/notebook-thumbnail-generator.tsx:30-38 | `NotebookName`: a longer path gives its decoded last segment, or "Notebook ML" if decoding fails |
| NotebookThumbnail.TruncateSpec | components/notebooks/notebook-thumbnail-generator.tsx:62-65 | `Truncate`: a title over 30 characters becomes its first 27 plus "...", exactly 30; a shorter one is unchanged |
| NotebookThumbnail.TruncateIdempotent | components/notebooks/notebook-thumbnail-generator.tsx:62-65 | truncating twice is truncating once |
| NotebookThumbnail.GenerateTitle | components/notebooks/notebook-thumbnail-generator.tsx:29-65 | the title is the truncated notebook name |

## Left out

- The 3D engine and three.js internals are not modelled: importer, fragments, raycasting geometry, highlight materials, `setVisible`, `fragments.update`, `Box3.setFromObject`, scene add/remove and the renderer. They are fields of the `Engine` value or ghost-free state fields (scene ids, highlight set, plane lists, update counter).
- Network and browser I/O are not modelled: the worker and model fetches, IFC-to-fragments conversion, the blob download mechanics, the canvas drawing of notebook thumbnails and toasts. Loaded bytes come from `Engine.load`, and `decodeURIComponent` is a parameter.
- React scheduling is not modelled: the timed re-registration of the click listener, the delays, loading flags, and the asynchronous interleaving of state updates. The one stale-closure effect that changes results is the finding below.
- Floating point: coordinates are `real`, so NaN, infinities (an empty `Box3`) and rounding are not modelled. The slider's browser-side sanitising of its value is not modelled either.
- Unicode: `toLowerCase` and NFD decomposition are modelled for the Latin-1 letters (U+0000–U+00FF); letters of other scripts are neither case-mapped nor decomposed. `localeCompare` is code-point order, and lengths count code points rather than UTF-16 units.
- `key in obj` looks at own properties only; prototype properties are not modelled.
- ConfigUtils.OrderedTeam: `order` is an optional integer; NaN, non-numeric orders and JavaScript's in-place `sort` are not modelled. The sort is a stable function on a copy, which is what `[...team].sort` returns.
- ConfigUtils.GalleryImages: `featured` is a boolean; other truthy values are not modelled.
- SearchUtils.SearchResourcesByType: the section name is a string, but resources always come from the four catalogue sections.
- SearchResults.TypeLabel: results always carry one of the four kinds, so the "Risorsa" fallback is only reachable for other strings.
- The configuration helpers that only read one constant or format text (`getPrimaryColor`, `getLogo`, `getProjectName`, `getNavigation`, `getMainImage`, `getMainVideo`, `formatDate`) are not part of this model.
- The section tool assumes the viewer world and fragments exist when the section effects run; the cleanup on unmount is not modelled.
- The viewer's grid and theme toggles are not part of this model.
- IfcViewer.Viewer.Click: the engine's `highlight` call is assumed to succeed. In the source a throw there (components/ifc/ifc-viewer.tsx:409) is caught at 421-423 after the old highlight was already reset, so the old selection stays and nothing is highlighted; the model always installs the new selection.
- IfcViewer.Viewer.ToggleModelVisibility: the world is assumed to exist and the scene add/remove and `fragments.update` are assumed to succeed. In the source a missing world returns at components/ifc/ifc-viewer.tsx:500, and a throw from the scene call (507-513) stops before any state change.
- IfcViewer.Viewer.RemoveModel: the world is assumed to exist and the scene removal and `fragments.update` are assumed to succeed. In the source a missing world returns at components/ifc/ifc-viewer.tsx:534, and a throw from the scene removal (541) leaves every field unchanged; a throw from the final update (569) comes after all state changes and changes nothing more.
- IfcViewer.Viewer.LoadConfiguredModel: fragments and world are assumed to exist, and the scene add and `fragments.update` after registration are assumed to succeed. In the source missing fragments or world return at components/ifc/ifc-viewer.tsx:245, and a throw at 314-315 leaves the model registered in the map and the store but skips the listener set-up and `setModelLoaded(true)`.
- IfcViewer.Viewer.LoadConfiguredModels: fragments and world are assumed to exist. In the source their absence returns at components/ifc/ifc-viewer.tsx:221 with nothing loaded.
- IfcViewer.GetElementInfo: `IsDefinedBy` is taken to be a list or absent. A truthy non-array value makes the `for…of` at components/ifc/ifc-viewer.tsx:470 throw, so the properties are not updated; the model has no such value.
- ClassificationTree.ResolveLocalId: a `getLocalId()` that resolves to `undefined` is not representable. The source keeps such a value, because `getLocalId()` is returned as is (components/ifc/classification-tree.tsx:55) and the filter at 104 tests only `!== null`.
- ClassificationTree.Tree.ToggleItemVisibility: the engine's `setVisible` and `fragments.update` are assumed to succeed. In the source a throw there (components/ifc/classification-tree.tsx:173-176) is caught before the flag flips, so nothing changes.
- ClassificationTree.Tree.ShowAll: the engine's `setVisible` and `fragments.update` are assumed to succeed. In the source a throw (components/ifc/classification-tree.tsx:219 or 225) skips the state update, so every flag stays as it was; calls made before the throw are not undone.

## Findings

| source | as written | input that shows it | evidently intended | confidence | as-written member | corrected member |
|---|---|---|---|---|---|---|
| components/ifc/ifc-viewer.tsx:220-241 | each `loadConfiguredModel` call builds its new map from the `models` captured at render time (lines 306-311), so the component keeps only the last loaded model while the global store holds all of them | two visible configurations a and b with distinct ids that both load, starting from an empty map | every loaded model stays in the component's map | not executed | IfcViewer.StaleSnapshotDropsFirstModel | IfcViewer.Viewer.LoadConfiguredModels |
