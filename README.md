# Visual part mapper: a Dafny model of the annotation store

The visual part mapper lets a user place the parts of a catalog on
pictures of a product. The catalog is a list of parts, and each part
belongs to one *view* (for example "front"). For each view the user
uploads an image. The user then clicks on it once per part, in catalog
order. When every part of every view is placed, the placements can be
exported.

This project models the core of that program and proves properties of the
model:

- **The store** (`store.dfy`, `store_spec.dfy`) is modelled as the class
  `Store.MapperStore`. Its fields are the store's six records: the view
  list, the parts of each view, the selected view, the image bound to each
  view, each view's mode and each view's cursor. Every action is a method
  that states the whole new state. The per-view `.map` transforms, the
  completeness test, the searches behind the selectors, the catalog
  grouping and the export snapshot are pure functions in `StoreSpec`, and
  lemmas about them live beside them.
- **The browser's object-URL registry**, which `setImage` and
  `cleanupImageUrls` call, is folded into the store as three parts:
  - a counter that hands out fresh handles;
  - a ghost set of the handles still live;
  - a ghost log of the revocations.

  The *release discipline* `UrlsBalanced` says that the live handles are
  exactly the handles bound to views, and that no handle is bound twice.
- **The mapping canvas's handlers** (`mapper.dfy`) are methods over the
  store: a stage click, a marker drag-end and an image upload. The drag
  bound and the pixel-to-fraction conversion are functions. A short
  session (load, upload, two clicks, export) is proved end to end.
- **The status bar's figures** (`status_bar.dfy`) are pure functions:
  the mapped count, the rounded progress, the status line, the mode
  colour, and when the progress widget shows.

Points where the code's behaviour is easy to misread:

- A click is stored **without clamping**. `src/components/MapperV2.tsx:88-89`
  divides the pointer position by the image size and keeps the result
  (`Mapper.ClickIsNotClamped`). Only a marker drag goes through
  `dragBoundFunc`.
- The actions that index a view's parts throw on an unknown view
  (`src/store/store.ts:128`, `158`, `168`, `192`), so the model requires a
  known view for them.
- `setSelectedView` accepts any string. `setImage` does not reset parts.
  `updatePartMapping` places **every** part that carries the given part
  number.

## Model

| member | source | states |
|---|---|---|
| Interfaces.StatusNameInjective | src/interface/interfaces.ts:3 | `StatusName` gives each of the five marker statuses its own literal: two statuses have the same literal exactly when they are equal |
| Interfaces.ModeNameInjective | src/interface/interfaces.ts:4 | `ModeName` gives each of the three view modes its own literal: two modes have the same literal exactly when they are equal |
| StoreSpec.WithDefaultStatus | src/store/store.ts:29-32 | A stored part has a status: its own if it had one, unmapped otherwise; every other field is kept |
| StoreSpec.CatalogViews | src/store/store.ts:23-27 | The views listed by the grouping loop; at most one per catalog part (its other properties are the lemmas below) |
| StoreSpec.CatalogParts | src/store/store.ts:23-34 | The group of one view built by the grouping loop; at most one entry per catalog part (its other properties are the lemmas below) |
| StoreSpec.CatalogViewsAreDistinctViews | src/store/store.ts:23-27 | The view list holds every view name that occurs in the catalog, holds nothing else, and holds no name twice |
| StoreSpec.CatalogViewsFirstSeenOrder | src/store/store.ts:23-27 | Views are listed in order of first appearance: the views of a catalog prefix are a prefix of the view list |
| StoreSpec.CatalogPartsBelongToView | src/store/store.ts:24-33 | A view's group holds only that view's parts, each with a status; the group is empty exactly when the view is not in the catalog |
| StoreSpec.CatalogPartsKeepEveryPart | src/store/store.ts:29-33 | Every catalog part lands in its own view's group, with a missing status defaulted to unmapped |
| StoreSpec.CatalogPartsPrefix | src/store/store.ts:23-34 | Groups keep catalog order: the group of a catalog prefix is a prefix of the group |
| Store.GroupByView | src/store/store.ts:20-34 | The grouping loop yields exactly the catalog's distinct views in first-seen order, and for each view exactly its parts in catalog order with default status |
| Store.FreshViewRecords | src/store/store.ts:37-45 | Every listed view, and no other name, gets an empty image binding, mode initial and cursor 0 |
| Store.FreshStoreAgrees | src/store/store.ts:18-54 | The records that initialization builds satisfy the store invariant, and no view has an object URL |
| Store.MapperStore.constructor | src/store/store.ts:8-13 | The empty store: no views, nothing selected, no live object URL |
| Store.MapperStore.SetSelectedView | src/store/store.ts:16 | Any string becomes the selected view; nothing else changes |
| Store.MapperStore.InitializePartsData | src/store/store.ts:18-55 | Every record is replaced by the catalog grouping, with fresh per-view records; the first view (or "") is selected; the selectors then show its group, mode initial, cursor 0 and no image; earlier object URLs stay live, so the release discipline holds afterwards only if no URL was live |
| Store.MapperStore.Install | src/store/store.ts:47-54 | The single `set` replaces all six records and selects the first view or "" |
| Store.MapperStore.SetImage | src/store/store.ts:58-78 | The view's old object URL is revoked; a file gets a URL never handed out before; the binding is replaced and the view's mode becomes initial; parts and cursor stay; the release discipline is kept |
| Store.MapperStore.BindImage | src/store/store.ts:59-75 | Revoke the old handle, allocate a new one for a file, bind the pair; live set and revocation log change by exactly those handles |
| Store.MapperStore.RevokeObjectUrl | src/store/store.ts:62 | The handle stops being live and the revocation is logged |
| Store.MapperStore.CreateObjectUrl | src/store/store.ts:66 | A handle never handed out before becomes live |
| StoreSpec.HandleOf | src/store/store.ts:61 | `images[view]?.objectUrl`: the view's object URL, or none for a view without an entry |
| Store.MapperStore.CleanupImageUrls | src/store/store.ts:81-89 | Exactly the bound object URLs are revoked, and the bindings themselves stay; under the release discipline nothing stays live and no URL is revoked twice |
| StoreSpec.ApplyMapping | src/store/store.ts:128-136 | Every part with the given number becomes mapped at the given position; every other part is kept as is; the length is kept |
| StoreSpec.RemappingOverwrites | src/store/store.ts:128-136 | Placing a part twice is the same as placing it once at the second position |
| StoreSpec.ModeAfterMapping | src/store/store.ts:139-140 | After a placement the mode is complete exactly when every part is mapped or it already was complete, and it never changes to anything but complete |
| StoreSpec.MappingEveryNumberCompletes | src/store/store.ts:128-140 | Placing the last unmapped part number makes every part mapped (`AllMapped`, the `.every` of line 139) and the mode complete |
| Store.MapperStore.UpdatePartMapping | src/store/store.ts:126-152 | Only the view's parts and mode change: the parts by ApplyMapping and the mode by ModeAfterMapping of the new parts |
| StoreSpec.ApplyStatus | src/store/store.ts:158-160 | Parts with the given number take the status; all others are kept; the length is kept |
| Store.MapperStore.UpdatePartStatus | src/store/store.ts:154-162 | Only the view's parts change, by ApplyStatus; the mode is not recomputed |
| StoreSpec.ClearMapping | src/store/store.ts:168-176 | Parts with the given number become unmapped without coordinates; all others are kept |
| StoreSpec.ClearUndoesMapping | src/store/store.ts:164-178 | Removing a placement restores parts that were unmapped and unplaced: ClearMapping undoes ApplyMapping |
| Store.MapperStore.RemovePartMapping | src/store/store.ts:164-178 | Only the view's parts change, by ClearMapping; the mode is not recomputed |
| Store.MapperStore.SetViewMode | src/store/store.ts:180-181 | Only the given view's mode changes, for any view name |
| Store.MapperStore.SetCurrentPartIndex | src/store/store.ts:183-186 | Only the given view's cursor changes, with no bounds check |
| StoreSpec.ResetAll | src/store/store.ts:192-196 | Every part becomes unmapped without coordinates, and nothing else of it changes |
| Store.MapperStore.ResetViewMapping | src/store/store.ts:188-200 | The view's parts are reset, its mode becomes initial and its cursor 0; the image binding stays |
| Store.MapperStore.EnterEditMode | src/store/store.ts:203-206 | Only the view's mode changes, to mapping; its placements stay |
| Store.MapperStore.CurrentViewImage | src/store/store.ts:209-212 | The selected view's object URL, or null when the view has no entry |
| Store.MapperStore.CurrentViewFile | src/store/store.ts:214-217 | The selected view's file, or null when the view has no entry |
| Store.MapperStore.CurrentViewParts | src/store/store.ts:219-222 | The selected view's parts, or the empty list when the view has no entry |
| Store.MapperStore.CurrentViewMode | src/store/store.ts:224-227 | The selected view's mode, or initial when the view has no entry |
| Store.MapperStore.CurrentPartIndex | src/store/store.ts:229-232 | The selected view's cursor, or 0 when the view has no entry |
| StoreSpec.FirstUnmappedIndex | src/store/store.ts:238 | The index of the first unmapped part, or -1 exactly when no part is unmapped |
| StoreSpec.FirstUnmapped | src/store/store.ts:238 | An unmapped part, the first one, or nothing exactly when no part is unmapped |
| Store.MapperStore.NextUnmappedPart | src/store/store.ts:234-239 | The first unmapped part of the selected view, or nothing exactly when none of its parts is unmapped |
| StoreSpec.IndexOfPartNumber | src/components/MapperV2.tsx:103-105 | The index of the first part with the given number, or -1 exactly when no part has it |
| StoreSpec.ImageFileName | src/store/store.ts:114 | The bound file's name, or null when there is no file or its name is empty |
| StoreSpec.ExportParts | src/store/store.ts:115-120 | One entry per part, in stored order, copying number, name, coordinates and status |
| StoreSpec.ExportViews | src/store/store.ts:112-121 | One entry per view, in view order, with its name, its image file name and its exported parts |
| Store.MapperStore.Export | src/store/store.ts:93-125 | No snapshot exactly when some recorded mode is not complete (`AllComplete`, the `.every` of lines 97-99); otherwise the view count, the given timestamp, and per view its name, file name and parts |
| StoreSpec.RebindKeepsBalance | src/store/store.ts:58-78 | Rebinding a view to a fresh handle, after dropping its old handle from the live set, keeps the release discipline |
| StoreSpec.FreshBindingKeepsHandlesDistinct | src/store/store.ts:66-75 | Binding a handle newer than every bound one keeps every handle bound to a single view |
| StoreSpec.BoundUrlsUpdate | src/store/store.ts:68-75 | Rebinding one view swaps its handle in the bound set and leaves the other handles alone |
| StatusBar.MappedCount | src/components/StatusBar.tsx:22 | The number of mapped parts, at most the number of parts |
| StatusBar.MappedCountFull | src/components/StatusBar.tsx:22-23 | The count equals the number of parts exactly when every part is mapped |
| StatusBar.MappedCountZero | src/components/StatusBar.tsx:22 | The count is zero exactly when no part is mapped |
| StatusBar.MappedCountByStatus | src/components/StatusBar.tsx:22 | The count depends only on which positions are mapped |
| StatusBar.MappedCountStep | src/components/StatusBar.tsx:22 | Mapping one more part, and changing no other mapped flag, raises the count by exactly one |
| StatusBar.RoundedPercent | src/components/StatusBar.tsx:25 | `Math.round(m / t * 100)`: the nearest integer to the exact percentage, with halves rounded up |
| StatusBar.RoundedPercentBounds | src/components/StatusBar.tsx:24-25 | The rounded percentage lies in [0, 100]; it is 0 for none mapped and 100 for all mapped |
| StatusBar.Progress | src/components/StatusBar.tsx:23-25 | The progress is at most 100 |
| StatusBar.ProgressEnds | src/components/StatusBar.tsx:23-25 | The progress is 0 with no parts or none mapped, and 100 when every part of a non-empty view is mapped |
| StatusBar.ProgressRoundsUpNearTheEnd | src/components/StatusBar.tsx:24-25 | With all parts but one mapped, the progress reads 100 exactly when there are at least 200 parts |
| StatusBar.MappingLineOf | src/components/StatusBar.tsx:49-56 | The part is named exactly when the cursor is on a part; "All parts mapped!" is chosen exactly when the cursor is past the end and no part is unmapped |
| StatusBar.StatusMessage | src/components/StatusBar.tsx:42-62 | "No view selected" without a selected view; otherwise one line per mode, and in mapping mode the name of the part at the cursor |
| StatusBar.PartLine | src/components/StatusBar.tsx:51 | The line `Mapping {name}`: the prefix "Mapping {", the part name unchanged, then "}" |
| StatusBar.StatusMessageIdentifiesState | src/components/StatusBar.tsx:42-62 | "All parts mapped!" shows exactly in mapping mode, with a view selected, the cursor past the end and no unmapped part; the "Ready to continue" line shows exactly when an unmapped part remains |
| StatusBar.ModeColorDistinct | src/components/StatusBar.tsx:28-39 | Each mode has its own colour, and none gets the fallback colour "text.secondary" |
| StatusBar.ModeColor | src/components/StatusBar.tsx:28-39 | `getModeColor`: initial, mapping and complete get "text.disabled", "primary.main" and "success.main", each exactly for its mode |
| StatusBar.ShownProgressIsMeaningful | src/components/StatusBar.tsx:101 | While the widget shows (`ShowsProgress`: mapping mode and a non-empty view), it displays the rounded share of mapped parts, and 100 once all parts are mapped |
| Mapper.Normalize | src/components/MapperV2.tsx:88-89 | The stored fractions times the image size give back the pointer position |
| Mapper.ClickIsNotClamped | src/components/MapperV2.tsx:88-89 | For every image size, a click right of or below the image is stored beyond 1, and one left of or above it below 0 |
| Mapper.Clamp | src/components/MapperV2.tsx:213-220 | The value held in [0, hi], unchanged when it is already inside |
| Mapper.DragBound | src/components/MapperV2.tsx:211-222 | `dragBoundFunc`: with a non-negative image size the bounded position lies in [0, W] x [0, H] |
| Mapper.DragBoundClamps | src/components/MapperV2.tsx:211-222 | A dragged position is held on the image, a position already on it is left alone, and bounding twice equals bounding once |
| Mapper.DraggedMarkerStaysOnImage | src/components/MapperV2.tsx:112-119 | A dragged marker's stored coordinates are fractions in [0, 1] |
| Mapper.NextCursor | src/components/MapperV2.tsx:101-109 | The click's new cursor, if any, is an index of the render-time parts |
| Mapper.ClickCursorFollowsUnmapped | src/components/MapperV2.tsx:101-109 | The cursor moves exactly when a part is still unmapped, to an index no later than that part's, holding its part number |
| Mapper.ClickCursorLandsOnFirstUnmapped | src/components/MapperV2.tsx:101-109 | With unique part numbers the cursor lands on the first unmapped part itself |
| Mapper.RepeatedNumberCursorOnMappedPart | src/components/MapperV2.tsx:101-109 | With a repeated part number the cursor can land on a part that is already mapped |
| Mapper.ClickMapsOneMorePart | src/components/MapperV2.tsx:91-99 | With unique part numbers, a click on an unmapped part raises the mapped count by one |
| Mapper.HandleStageClick | src/components/MapperV2.tsx:77-110 | Unless `ClickAccepted` (mapping mode and the cursor on a part, lines 78-82) nothing changes; otherwise the part at the cursor is placed at the pointer, the mode is recomputed and the cursor follows NextCursor |
| Mapper.HandleDragEnd | src/components/MapperV2.tsx:112-119 | In any mode, the parts with that number are placed at the bounded drop position; the cursor does not move |
| Mapper.HandleImageUpload | src/components/MapperV2.tsx:64-75 | Without a file or a selected view nothing changes; otherwise the file is bound to a URL never handed out before, the URL counter advances by one, the parts are reset, the cursor goes to 0 and the mode becomes mapping; the release discipline is kept |
| Mapper.UploadRestartsProgress | src/components/MapperV2.tsx:64-71 | After an upload nothing is mapped, progress is 0 and the first unmapped part is the first part |
| Mapper.TwoClicksComplete | src/components/MapperV2.tsx:77-110 | On two unmapped parts with distinct numbers, the first click sends the cursor to the second part and the second click completes the view with both positions kept |
| Mapper.TwoPartSession | src/components/MapperV2.tsx:64-110 | Load, upload and two clicks: after the first click the cursor and the status line are on the nut; after the second both parts are placed where clicked, the view is complete and the export succeeds |

## Left out

- The browser's `URL.createObjectURL` and `URL.revokeObjectURL` are modelled as a counter of handles plus ghost sets. Handle strings and memory are not modelled.
- `alert` in exportData is left out. The model returns no snapshot in that case.
- `new Date().toISOString()` is a parameter of `Export`.
- Coordinates, sizes and the progress division are exact reals and rationals, not IEEE doubles. `Math.round` is modelled as the nearest integer with halves rounded up.
- Mapper.HandleStageClick: requires a positive image width and height. With a zero size the code divides by zero and stores Infinity or NaN; that case is not modelled.
- Mapper.HandleDragEnd: requires a positive image width and height, for the same reason.
- Store.MapperStore.SetCurrentPartIndex: the cursor is a natural number. Every caller passes 0 or a found index, so a negative cursor never arises.
- Store.MapperStore.UpdatePartMapping: requires a known view. The code throws on an unknown view, and a thrown error is not modelled.
- Store.MapperStore.UpdatePartStatus: requires a known view, for the same reason.
- Store.MapperStore.RemovePartMapping: requires a known view, for the same reason.
- Store.MapperStore.ResetViewMapping: requires a known view, for the same reason.
- Store.MapperStore.InitializePartsData: does not state the release discipline afterwards. The code drops bound images without revoking their URLs, so those URLs stay live; the contract states exactly that.
- View names are keys of maps. A view named like an `Object.prototype` member is treated as any other key.
- Unreachable `default` branches of the mode switches are left out, since the mode has three values. `ModeColorDistinct` shows the fallback colour is never produced.
- Resetting the file input's value after an upload is left out. It does not touch the store.
- The handlers read the parts and cursor captured at render time. The model takes them from the current store, since a re-render happens between events.
- Rendering, zoom, the aspect-fit sizing, the sidebar, the header and the export file download are not part of this model.
