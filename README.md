# View marking utilities and i18n element placeholders, in Dafny

This project models two parts of the Angular framework and proves properties of the model.

1. **Runtime view utilities** (`packages/core/src/render3/util/view_utils.ts`).
   - The runtime keeps a tree of views (`LView`) and containers (`LContainer`).
   - Values in a view's slots can wrap one another through their `HOST` slot. `unwrapRNode` and `unwrapLView` follow those links.
   - Views are flagged for change detection:
     - `markViewForRefresh` and `markViewDirtyFromSignal` set `RefreshView`, then call `markAncestorsForTraversal` on an attached view.
     - `updateAncestorTraversalFlagsOnAttach` only reads `RefreshView` and `HasChildViewsToRefresh`, and calls `markAncestorsForTraversal` when either is set.
     - `markAncestorsForTraversal` sets the `HasChildViewsToRefresh` marker on ancestors, walking the `PARENT` links.
   - Each view keeps a list of destroy callbacks.
2. **The template compiler's i18n element-placeholder phase** (`packages/compiler/src/template/pipeline/src/phases/resolve_i18n_element_placeholders.ts`).
   - The phase first indexes extracted-message ops by owner and element-start ops by xref.
   - It then walks every compilation unit's creation ops, tracking the open i18n block.
   - For each element or template tag placeholder it meets, it appends a parameter value `{value, subTemplateIndex, flags}` to the open block's message.

Modules:

- `Wrappers` (wrappers.dfy): `Option`, `Outcome` and `Result`.
- `ViewModel` (view_model.dfy): the view tree as an arena `Heap(views, containers)` keyed by id.
  - A slot is a tagged value: `RNode | NullNode | View(id) | Container(id)`.
  - A ghost `depth` parameter counts the `PARENT` links to the root, or bounds the `HOST` links. It states that the tree is acyclic and gives termination.
  - The heap each marking operation leaves behind is a ghost function (`AfterMarkAncestors`, `AfterMarkViewForRefresh`, `AfterAttach`, `AfterMarkDirtyFromSignal`).
  - `TraversalChain` is an independent reference definition of the nodes the upward walk writes.
- `ViewMarking` (view_marking.dfy): lemmas about the marking functions.
  - The walk sets the marker on exactly the chain's nodes.
  - It never clears a flag, never touches the start view, and leaves the nodes at or above an already-marked ancestor alone.
  - `Propagated` is a propagation invariant: every node that needs traversal has a marked parent, unless it is a detached view or the root. The marking operations keep it or restore it.
- `DestroyHooks` (destroy_hooks.dfy): the destroy-callback list. `indexOf` followed by `splice` is proved equal to a recursive reference "remove first occurrence".
- `ViewUtils` (view_utils.dfy): class `ViewHeap` holds the arena as mutable fields.
  - Its methods carry out the source's loops and in-place flag writes.
  - Each method is proved equal to the matching function of the model.
- `I18nIr` (i18n_ir.dfy): the creation ops, units, job and phase errors this phase uses.
- `I18nPlaceholders` (i18n_placeholders.dfy): the phase as functions.
  - `IndexOps` is the first scan; `StepOp`, `WalkOps` and `WalkUnits` are the second walk; `ResolvedParams` is the whole phase.
  - Lemmas state the behaviour of each op kind, the error cases, and which block is open.
- `I18nPhase` (i18n_phase.dfy): the phase as nested loops, proved to compute `ResolvedParams`.

The phase's result is the map from owner to the params of the message indexed under that owner, or the error the phase throws.

## Model

| member | source | states |
|---|---|---|
| ViewModel.GetConstant | packages/core/src/render3/util/view_utils.ts:153-157 | A null or undefined index yields null. Any other index yields the constant at that position, which must be inside the table. |
| ViewModel.HostChain | packages/core/src/render3/util/view_utils.ts:41-45 | The slots met when following HOST links start at the slot and end at the first non-view, non-container value. Each step is the previous slot's HOST. |
| ViewModel.FirstViewIndex | packages/core/src/render3/util/view_utils.ts:53-58 | This is the position of the first view on a HOST chain, or -1; no view comes before it. |
| ViewModel.ComponentLViewIsUnwrappedView | packages/core/src/render3/util/view_utils.ts:121-127 | `getComponentLViewByIndex` finds the same view as unwrapping the slot to its first view, whether the slot holds the view or a container hosted by it. |
| ViewModel.WalkUpViewsComposes | packages/core/src/render3/util/view_utils.ts:186-196 | Walking up `a` declaration levels and then `b` more is the same as walking up `a + b` levels. |
| ViewModel.DeclarationAncestor | packages/core/src/render3/util/view_utils.ts:186-196 | The view `level` DECLARATION_VIEW links up, or the view itself for a level of 0 or less; `ViewUtils.ViewHeap.WalkUpViews` is proved equal to it and `WalkUpViewsComposes` shows the levels add up. |
| ViewModel.HasMarker | packages/core/src/render3/util/view_utils.ts:227-228 | A container's HAS_CHILD_VIEWS_TO_REFRESH, or a view's HasChildViewsToRefresh flag: the test at which the walk stops. |
| ViewModel.SetMarker | packages/core/src/render3/util/view_utils.ts:232-235 | The one write the walk makes on a node: the container's marker, or the view's HasChildViewsToRefresh flag; `MarkAncestorsOnlySetsMarkers` shows it is the only kind of write. |
| ViewModel.SetRefresh | packages/core/src/render3/util/view_utils.ts:175 | The write `lView[FLAGS] \|= RefreshView`, also made at line 257; `TraversalChainIgnoresRefresh` shows it does not change the walk. |
| ViewModel.SetAttached | packages/core/src/render3/util/view_utils.ts:205-212 | The caller's switch of a view to attached before `updateAncestorTraversalFlagsOnAttach`; `RootAtSetAttached` shows it keeps every PARENT distance. |
| ViewModel.RootAtSetAttached | packages/core/src/render3/util/view_utils.ts:205-212 | Attaching a view changes no distance to the root. |
| ViewModel.IsCreationMode | packages/core/src/render3/util/view_utils.ts:130-132 | The view's CreationMode flag; no marking operation changes it (`MarkAncestorsKeepsViewStatus`, `EntryPointsKeepViewStatus`, `SignalKeepsViewStatus`). |
| ViewModel.ViewAttachedToChangeDetector | packages/core/src/render3/util/view_utils.ts:140-142 | The view's Attached flag; it decides whether marking propagates (`MarkViewForRefreshEffect`, `MarkDirtyFromSignalTargetsComponentView`) and no marking operation changes it (`MarkAncestorsKeepsViewStatus`, `EntryPointsKeepViewStatus`, `SignalKeepsViewStatus`). |
| ViewModel.ViewAttachedToContainer | packages/core/src/render3/util/view_utils.ts:145-147 | The view's PARENT is a container; no marking operation changes it (`MarkAncestorsKeepsViewStatus`, `EntryPointsKeepViewStatus`, `SignalKeepsViewStatus`). |
| ViewModel.GetComponentLViewByIndex | packages/core/src/render3/util/view_utils.ts:121-127 | The slot's view, or the HOST of the container in the slot; `ComponentLViewIsUnwrappedView` proves it is the first view on the slot's HOST chain. |
| ViewModel.AfterMarkAncestors | packages/core/src/render3/util/view_utils.ts:222-242 | The heap after the upward walk from a node: stop at a marked node, mark a detached view and stop, else mark and go on to the parent. `MarkAncestorsMarksChain` characterises it. |
| ViewModel.AfterMarkViewForRefresh | packages/core/src/render3/util/view_utils.ts:171-179 | The heap after `markViewForRefresh`; `MarkViewForRefreshEffect` gives it in each of the three cases. |
| ViewModel.AfterAttach | packages/core/src/render3/util/view_utils.ts:209-213 | The heap after `updateAncestorTraversalFlagsOnAttach`; `AttachEffect` gives it in both cases. |
| ViewModel.AfterMarkDirtyFromSignal | packages/core/src/render3/util/view_utils.ts:255-261 | The heap after `markViewDirtyFromSignal`; `MarkDirtyFromSignalTargetsComponentView` gives it. |
| ViewModel.DepthUnique | packages/core/src/render3/util/view_utils.ts:222-241 | A node has one distance to the root, so the upward walk meets no node twice. |
| ViewModel.TraversalChain | packages/core/src/render3/util/view_utils.ts:222-241 | This is the reference definition of the path the walk writes. It starts at the parent and holds unmarked nodes only. Interior nodes are attached and linked by PARENT. It ends at a detached view, or at the root, or just below a marked node. |
| ViewMarking.MarkAncestorsMarksChain | packages/core/src/render3/util/view_utils.ts:222-241 | The heap after `markAncestorsForTraversal` equals the heap before with the marker set on exactly the nodes of the chain. |
| ViewMarking.MarkAncestorsChainEffect | packages/core/src/render3/util/view_utils.ts:232-241 | Every view and container on the chain ends with the marker. Every node off the chain is unchanged. No view or container is added or removed. |
| ViewMarking.MarkAncestorsOnlySetsMarkers | packages/core/src/render3/util/view_utils.ts:227-239 | The walk only ever sets markers. No other field changes and no flag is cleared. |
| ViewMarking.MarkAncestorsSkipsStartView | packages/core/src/render3/util/view_utils.ts:222-224 | The view the walk starts from is left unchanged. |
| ViewMarking.AncestorDepth | packages/core/src/render3/util/view_utils.ts:224-240 | The `j`-th node of the PARENT path from a node at distance `depth` from the root is at distance `depth - j`. |
| ViewMarking.ChainIsPathPrefix | packages/core/src/render3/util/view_utils.ts:224-240 | The chain is the start of the full PARENT path to the root. |
| ViewMarking.ChainStopsBelowMarked | packages/core/src/render3/util/view_utils.ts:225-230 | When an ancestor already has the marker, the chain stops before reaching it. |
| ViewMarking.PathNodesDistinct | packages/core/src/render3/util/view_utils.ts:224-240 | The PARENT path visits each node once. |
| ViewMarking.PathAboveChainIsOffChain | packages/core/src/render3/util/view_utils.ts:224-240 | Nodes of the path above the chain's end are not on the chain. |
| ViewMarking.NothingWrittenAboveMarkedAncestor | packages/core/src/render3/util/view_utils.ts:225-231 | Early exit: an already-marked ancestor and every node above it are left exactly as they were. |
| ViewMarking.ChainIgnoresDeeperMark | packages/core/src/render3/util/view_utils.ts:224-240 | Marking a node farther from the root does not change the chain read from a nearer node. |
| ViewMarking.DeeperNodeNotInChain | packages/core/src/render3/util/view_utils.ts:224-240 | A node farther from the root than the start is not on the chain. |
| ViewMarking.MarkAncestorsKeepsViewStatus | packages/core/src/render3/util/view_utils.ts:130-147 | The upward walk changes no view's creation mode, attachment to change detection or attachment to a container. |
| ViewMarking.EntryPointsKeepViewStatus | packages/core/src/render3/util/view_utils.ts:171-213 | `markViewForRefresh` and `updateAncestorTraversalFlagsOnAttach` change no view's creation mode, attachment to change detection or attachment to a container. |
| ViewMarking.SignalKeepsViewStatus | packages/core/src/render3/util/view_utils.ts:255-261 | Neither does `markViewDirtyFromSignal`. |
| ViewMarking.AncestorStep | packages/core/src/render3/util/view_utils.ts:240 | Consecutive nodes of the path to the root are linked by PARENT. |
| ViewMarking.PropagatedMarksPathToRoot | packages/core/src/render3/util/view_utils.ts:215-221 | Under the propagation invariant, above a node that needs traversal every ancestor up to the root carries the marker, until the path passes a detached view. |
| ViewMarking.SetMarkerKeepsCovered | packages/core/src/render3/util/view_utils.ts:233-235 | Setting a marker on one node keeps every other node covered by the propagation invariant. |
| ViewMarking.MarkAncestorsRestoresPropagation | packages/core/src/render3/util/view_utils.ts:215-242 | If only the start node may lack coverage, the walk from its parent restores the propagation invariant for the whole tree. |
| ViewMarking.SetRefreshKeepsOthersCovered | packages/core/src/render3/util/view_utils.ts:175 | Setting RefreshView on a view keeps every other node covered. |
| ViewMarking.MarkViewForRefreshPropagates | packages/core/src/render3/util/view_utils.ts:171-179 | `markViewForRefresh` keeps the propagation invariant. |
| ViewMarking.AttachRestoresPropagation | packages/core/src/render3/util/view_utils.ts:209-213 | Attaching a view that may be uncovered and calling `updateAncestorTraversalFlagsOnAttach` on it restores the invariant. |
| ViewMarking.AttachFromPropagated | packages/core/src/render3/util/view_utils.ts:205-212 | Attaching a view in a tree that keeps the propagation invariant and then calling `updateAncestorTraversalFlagsOnAttach` keeps the invariant. |
| ViewMarking.MarkDirtyFromSignalPropagates | packages/core/src/render3/util/view_utils.ts:255-261 | `markViewDirtyFromSignal` keeps the propagation invariant. |
| ViewMarking.MarkViewForRefreshEffect | packages/core/src/render3/util/view_utils.ts:171-179 | An already-refreshing view leaves the tree unchanged. A detached view only gains RefreshView. An attached view gains RefreshView and the chain above it gains markers. |
| ViewMarking.TraversalChainIgnoresRefresh | packages/core/src/render3/util/view_utils.ts:175-177 | Setting RefreshView does not change the chain the walk then takes. |
| ViewMarking.MarkViewForRefreshIdempotent | packages/core/src/render3/util/view_utils.ts:172-174 | Calling `markViewForRefresh` twice leaves the tree as calling it once. |
| ViewMarking.MarkDirtyFromSignalTargetsComponentView | packages/core/src/render3/util/view_utils.ts:255-261 | RefreshView is set on the declaration component view and on no other view. When that view is detached, the result is the old tree with only that flag set. When it is attached, the result is that view with RefreshView set and the marker set on exactly the chain above it, whether or not RefreshView was already set. |
| ViewMarking.MarkDirtyFromSignalIsRefreshOfComponentView | packages/core/src/render3/util/view_utils.ts:255-261 | When the component view is not yet refreshing, `markViewDirtyFromSignal` acts as `markViewForRefresh` on it. |
| ViewMarking.AttachEffect | packages/core/src/render3/util/view_utils.ts:209-213 | The call is a no-op unless the view has RefreshView or HasChildViewsToRefresh. Otherwise it is exactly `markAncestorsForTraversal`. |
| ViewMarking.MarkAncestorsIdempotent | packages/core/src/render3/util/view_utils.ts:225-230 | A second `markAncestorsForTraversal` from the same node changes nothing, because the walk's first node now carries the marker and the loop breaks at once. |
| ViewMarking.MarkDirtyFromSignalIdempotent | packages/core/src/render3/util/view_utils.ts:255-261 | Calling `markViewDirtyFromSignal` twice leaves the tree as calling it once, although it has no early return. |
| ViewMarking.AttachCatchesUpOnRefresh | packages/core/src/render3/util/view_utils.ts:205-212 | A detached view marked for refresh, then attached and passed to `updateAncestorTraversalFlagsOnAttach`, ends in the same tree as one attached first and then marked for refresh. |
| ViewMarking.AttachNeededWhenAlreadyRefreshed | packages/core/src/render3/util/view_utils.ts:172-174 | Once RefreshView was set while detached, `markViewForRefresh` after attaching is a no-op, while `updateAncestorTraversalFlagsOnAttach` marks the unmarked parent. |
| DestroyHooks.RemoveFirst | packages/core/src/render3/util/view_utils.ts:280-287 | Reference definition: the list without the first occurrence of the callback; `SpliceAtIndexOfRemovesFirst`, `RemoveAbsentIsNoOp` and `RemovePresentDropsOne` relate it to the source's `indexOf` and `splice`. |
| DestroyHooks.Splice | packages/core/src/render3/util/view_utils.ts:285 | `splice(i, 1)`: the list without its element at `i`; `SpliceShiftsDown` gives its length and elements. |
| DestroyHooks.SpliceShiftsDown | packages/core/src/render3/util/view_utils.ts:285 | After `splice(i, 1)` the list is one element shorter, keeps the elements before `i`, and moves each later element down by one. |
| DestroyHooks.Stored | packages/core/src/render3/util/view_utils.ts:271-274 | The list after a store: created empty when null, then the callback appended; `StoreThenRemove` shows removing it gives back the old hooks. |
| DestroyHooks.IndexOf | packages/core/src/render3/util/view_utils.ts:283 | This is the first position of the callback, or -1 exactly when it is absent. |
| DestroyHooks.SpliceAtIndexOfRemovesFirst | packages/core/src/render3/util/view_utils.ts:283-286 | `indexOf` followed by `splice(i, 1)` removes exactly the first occurrence, keeping the rest in order. |
| DestroyHooks.RemoveAbsentIsNoOp | packages/core/src/render3/util/view_utils.ts:284 | Removing an absent callback changes nothing. |
| DestroyHooks.RemovePresentDropsOne | packages/core/src/render3/util/view_utils.ts:284-286 | Removing a present callback shortens the list by one and drops one copy of it from the list's multiset. |
| DestroyHooks.StoreThenRemove | packages/core/src/render3/util/view_utils.ts:266-287 | Storing a new callback and then removing it gives back the earlier hooks. |
| DestroyHooks.StoreThenRemoveAt | packages/core/src/render3/util/view_utils.ts:274-286 | Appending a callback not yet in the list and removing its first occurrence gives back the list. |
| DestroyHooks.RegisterTwoRemoveFirst | packages/core/src/render3/util/view_utils.ts:266-287 | Registering two callbacks on a view without hooks and removing the first leaves the second. |
| ViewUtils.ViewHeap.UnwrapRNode | packages/core/src/render3/util/view_utils.ts:41-46 | The result is never a view or container. A bare value is returned as is. Otherwise the result is the end of the HOST chain. |
| ViewUtils.ViewHeap.UnwrapLView | packages/core/src/render3/util/view_utils.ts:52-60 | The result is the first view on the HOST chain, or null. A slot holding a view yields that view. |
| ViewUtils.ViewHeap.GetNativeByIndex | packages/core/src/render3/util/view_utils.ts:66-70 | For an index past the header and in range, the result is the unwrapped render node of that slot. |
| ViewUtils.ViewHeap.GetNativeByTNode | packages/core/src/render3/util/view_utils.ts:80-85 | The result is the unwrapped render node of the TNode's slot. |
| ViewUtils.ViewHeap.GetNativeByTNodeOrNull | packages/core/src/render3/util/view_utils.ts:95-103 | A null TNode, or one with index -1, yields null. Otherwise the result is the unwrapped node of its slot. |
| ViewUtils.ViewHeap.WalkUpViews | packages/core/src/render3/util/view_utils.ts:186-196 | The loop returns the view `nestingLevel` DECLARATION_VIEW links up, or the view itself for a level of 0 or less. |
| ViewUtils.ViewHeap.ResetPreOrderHookFlags | packages/core/src/render3/util/view_utils.ts:163-165 | Only the view's pre-order hook flags change, and they become 0. |
| ViewUtils.ViewHeap.MarkAncestorsForTraversal | packages/core/src/render3/util/view_utils.ts:222-242 | The loop leaves the heap equal to `AfterMarkAncestors` from the view's parent. That heap is the marked chain, by `MarkAncestorsMarksChain`. |
| ViewUtils.ViewHeap.MarkViewForRefresh | packages/core/src/render3/util/view_utils.ts:171-179 | The new heap is `AfterMarkViewForRefresh`: no change if RefreshView is already set, otherwise set it and propagate only from an attached view. |
| ViewUtils.ViewHeap.UpdateAncestorTraversalFlagsOnAttach | packages/core/src/render3/util/view_utils.ts:209-213 | The new heap is `AfterAttach`: propagate only when the view has RefreshView or HasChildViewsToRefresh. |
| ViewUtils.ViewHeap.MarkViewDirtyFromSignal | packages/core/src/render3/util/view_utils.ts:255-261 | The new heap is `AfterMarkDirtyFromSignal`: set RefreshView on the declaration component view, then propagate if that view is attached. |
| ViewUtils.ViewHeap.StoreLViewOnDestroy | packages/core/src/render3/util/view_utils.ts:266-275 | A destroyed view fails with ViewAlreadyDestroyed and nothing changes. Otherwise the list is created if null and the callback is appended at its end. |
| ViewUtils.ViewHeap.RemoveLViewOnDestroy | packages/core/src/render3/util/view_utils.ts:280-287 | A null list is left alone. Otherwise the list becomes the reference "remove first occurrence" of the callback, and nothing else changes. |
| I18nIr.FindUnit | packages/compiler/src/template/pipeline/src/phases/resolve_i18n_element_placeholders.ts:113 | The lookup finds the ops of a unit with the xref, or reports that no unit has it. |
| I18nPlaceholders.AddParam | packages/compiler/src/template/pipeline/src/phases/resolve_i18n_element_placeholders.ts:122-128 | Appends the value at the end of the placeholder's list, creating the list if absent. All other keys are unchanged. |
| I18nPlaceholders.ScanRecordsLastMessage | packages/compiler/src/template/pipeline/src/phases/resolve_i18n_element_placeholders.ts:17-30 | The first scan records an owner exactly when some extracted message has it. It keeps the params of the last such message. |
| I18nPlaceholders.IndexOp | packages/compiler/src/template/pipeline/src/phases/resolve_i18n_element_placeholders.ts:21-28 | One op of the first scan: an extracted message is set under its owner, an element start under its xref, any other op changes nothing; `ScanRecordsLastMessage` characterises the fold. |
| I18nPlaceholders.ScanRecordsLastElement | packages/compiler/src/template/pipeline/src/phases/resolve_i18n_element_placeholders.ts:17-30 | The first scan records an xref among the elements exactly when some element start has it. It keeps the slot and placeholder of the last such op, which is the start op an element end is later paired with. |
| I18nPlaceholders.IndexOps | packages/compiler/src/template/pipeline/src/phases/resolve_i18n_element_placeholders.ts:17-30 | The two maps of the first scan over ops in order; `ScanRecordsLastMessage` characterises the messages map and `ScanRecordsLastElement` the elements map. |
| I18nPlaceholders.SubTemplateIndexForTemplateTag | packages/compiler/src/template/pipeline/src/phases/resolve_i18n_element_placeholders.ts:111-119 | The sub-template index a template's placeholders get; `SubTemplateIndexIsFirstI18nStart` characterises it. |
| I18nPlaceholders.ResolvedParams | packages/compiler/src/template/pipeline/src/phases/resolve_i18n_element_placeholders.ts:15-105 | The whole phase: the first scan over all units, then the walk of every unit from no open block. |
| I18nPlaceholders.FirstI18nStart | packages/compiler/src/template/pipeline/src/phases/resolve_i18n_element_placeholders.ts:113-117 | This is the position of the first i18n start op, or -1; no i18n start op comes before it. |
| I18nPlaceholders.StepOp | packages/compiler/src/template/pipeline/src/phases/resolve_i18n_element_placeholders.ts:37-102 | A successful step keeps the set of indexed messages. An open block always has a message. |
| I18nPlaceholders.WalkOps | packages/compiler/src/template/pipeline/src/phases/resolve_i18n_element_placeholders.ts:37-103 | The same holds across a unit's whole op list. |
| I18nPlaceholders.WalkUnits | packages/compiler/src/template/pipeline/src/phases/resolve_i18n_element_placeholders.ts:32-104 | A successful walk over the units keeps the set of indexed owners. |
| I18nPlaceholders.OpenBlockIsLastI18nStart | packages/compiler/src/template/pipeline/src/phases/resolve_i18n_element_placeholders.ts:35-47 | During a unit's walk, a block is open exactly when the last i18n start/end op seen is a start, and it is that op's block. |
| I18nPlaceholders.PlaceholderOutsideBlockFails | packages/compiler/src/template/pipeline/src/phases/resolve_i18n_element_placeholders.ts:51-54 | A placeholder-carrying op before any i18n start, or after an i18n end, makes the walk fail with PlaceholderOutsideI18n. This covers ElementStart, Template, and an ElementEnd whose start op had a placeholder. |
| I18nPlaceholders.I18nStartWithoutMessageFails | packages/compiler/src/template/pipeline/src/phases/resolve_i18n_element_placeholders.ts:39-42 | An i18n start whose xref owns no extracted message fails with MissingExtractedMessage. |
| I18nPlaceholders.WalkOpsErrorSticks | packages/compiler/src/template/pipeline/src/phases/resolve_i18n_element_placeholders.ts:37-103 | The first error of a unit's walk is the result of the whole walk of that unit. |
| I18nPlaceholders.WalkUnitsErrorSticks | packages/compiler/src/template/pipeline/src/phases/resolve_i18n_element_placeholders.ts:32-104 | An error while walking one unit is the result of the whole second loop. |
| I18nPlaceholders.ElementStartRecordsStartTag | packages/compiler/src/template/pipeline/src/phases/resolve_i18n_element_placeholders.ts:48-66 | Inside a block, an element start appends one value (its slot, the block's subTemplateIndex) under its start name. The flags are ElementTag and OpenTag, plus CloseTag when the close name is empty. No other key is added and no other value changes. |
| I18nPlaceholders.ElementEndRecordsCloseTag | packages/compiler/src/template/pipeline/src/phases/resolve_i18n_element_placeholders.ts:67-84 | Inside a block, the end of a placeholder element appends one value under the close name, with the start op's slot and flags ElementTag and CloseTag, adds no other key and changes no other value. A self-closing element appends nothing. |
| I18nPlaceholders.TemplateRecordsStartAndClose | packages/compiler/src/template/pipeline/src/phases/resolve_i18n_element_placeholders.ts:85-101 | Inside a block, a template with a placeholder appends TemplateTag under its start name, then TemplateTag and CloseTag under its close name. Both values carry its slot and sub-template index. |
| I18nPlaceholders.SubTemplateIndexIsFirstI18nStart | packages/compiler/src/template/pipeline/src/phases/resolve_i18n_element_placeholders.ts:111-119 | A template's sub-template index is that of the first i18n start op in its own view, or the enclosing block's when there is none. |
| I18nPlaceholders.OpsWithoutPlaceholderChangeNothing | packages/compiler/src/template/pipeline/src/phases/resolve_i18n_element_placeholders.ts:38-102 | In the second walk, other op kinds, and element or template ops without a placeholder, leave the state unchanged. |
| I18nPhase.GetSubTemplateIndexForTemplateTag | packages/compiler/src/template/pipeline/src/phases/resolve_i18n_element_placeholders.ts:111-119 | The loop with its early return computes `SubTemplateIndexForTemplateTag`. A template with no view is an error. |
| I18nPhase.IndexCreateOps | packages/compiler/src/template/pipeline/src/phases/resolve_i18n_element_placeholders.ts:17-30 | The first pair of loops builds exactly the maps of `IndexOps` over all units' ops. |
| I18nPhase.Step | packages/compiler/src/template/pipeline/src/phases/resolve_i18n_element_placeholders.ts:38-102 | One pass through the switch computes `StepOp`, including its three errors. |
| I18nPhase.FailureEndsPass | packages/compiler/src/template/pipeline/src/phases/resolve_i18n_element_placeholders.ts:39-101 | An error thrown at any op of any unit is the result of the whole phase. |
| I18nPhase.ResolveI18nElementPlaceholders | packages/compiler/src/template/pipeline/src/phases/resolve_i18n_element_placeholders.ts:15-105 | Both nested loops together compute `ResolvedParams`: either every indexed message's params after the walk, or the first error thrown. |

## Left out

- `getTNode` and `load` (view_utils.ts:107-119) read a `TView`'s or `LView`'s array at an index. They are not modelled: the TNode and TView internals are outside this model, so a TNode is given by its `index`.
- The guards of `ngDevMode && assert…` become `requires` clauses and are not runtime behaviour. They cover: index in range, index past `HEADER_OFFSET`, a declaration view present at each level, and a TNode that belongs to the view.
- ViewModel.GetComponentLViewByIndex: requires the slot to hold a view, or a container whose HOST is a view. The source returns whatever is in the container's HOST slot without checking.
- A view's `data` holds its slots at every index, but the header entries below `HEADER_OFFSET` are kept as separate `LView` fields and not tied to `data`. `GetNativeByTNode`, `GetNativeByTNodeOrNull` and `GetComponentLViewByIndex` therefore accept an index below `HEADER_OFFSET` and read a slot there, where the source would read a header entry; in the framework every TNode index is at or past `HEADER_OFFSET`.
- A params map is a Dafny `map`, which has no order. The source's `Map` keeps placeholder keys in insertion order, and the model does not capture that order; the order of values under one placeholder is modelled.
- The `Array.isArray`/`typeof` shape tests become the tagged `Slot` datatype.
- The numeric bit encodings of `LViewFlags` and `I18nParamValueFlags` become booleans and sets of flag names.
- `HEADER_OFFSET` is taken as 25 from the framework's view header layout. The file that defines it is not part of this model.
- The text and code of the `RuntimeError` thrown by `storeLViewOnDestroy`: the model keeps only `ViewAlreadyDestroyed`.
- Invoking destroy hooks, and the change-detection traversal that reads and clears the refresh flags. Neither is in these files.
- A container's list of views is not modelled: none of these functions reads it.
- The doc comment of `updateAncestorTraversalFlagsOnAttach` (view_utils.ts:199-208) speaks of a counter that goes 0→1 and 1→0. The code uses a boolean marker that it only ever sets, and the model follows the code.
- The doc comment of `markViewDirtyFromSignal` (view_utils.ts:244-254) says only that it locates the declaration component view and marks it for refresh. Unlike `markViewForRefresh` (view_utils.ts:172-174), the code (view_utils.ts:255-261) has no early return when RefreshView is already set, and the model follows the code: it always sets the flag and walks up from an attached component view. `MarkDirtyFromSignalIsRefreshOfComponentView` shows that the two agree when the flag is not yet set; `MarkDirtyFromSignalTargetsComponentView` gives the result when it is.
- Termination and acyclicity of the HOST, PARENT and DECLARATION_VIEW links are preconditions (a ghost `depth`). The source assumes these links are acyclic and does not check it.
- I18nPhase.ResolveI18nElementPlaceholders: when the phase throws, only the error is modelled. The source has already updated the params of earlier messages in place by then, and the model does not capture those partial updates.
- Extracted-message ops that a later op with the same owner shadows keep their own params. The model returns only the params of the message indexed under each owner.
- `op.slot.slot!` is taken to be set: a slot is an integer.
- `job.views.get(op.xref)!` on a template with no view would throw in the source when `.create` is read. The model reports it as the error `MissingTemplateView`.
- The compiler's full `ir` and `ComponentCompilationJob` are reduced to the op kinds and fields this phase reads. The map from view xref to ops is a lookup over the job's units.
