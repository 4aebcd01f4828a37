# booth-admin layer model in Dafny

booth-admin is a compositor: an operator uploads one frame image and any
number of photos. They arrange the photos on a canvas, restack the layers
in a side list, and export the layout as JSON. This project models the
compositor's layer collection and the transitions that replace it:

- the layer datatypes, a tagged union of a frame and photos (`Layers`);
- restacking a layer by dragging it in the top-to-bottom list (`Ordering`, over
  `Sequences.ArrayMove`, the list library's remove-then-insert);
- "Add Frame", "Add Photo" and the visibility toggle (`Transitions`);
- committing the canvas's position, size and rotation after a drag or a
  resize/rotate gesture, and the live bound check of the resize handles
  (`Geometry`);
- the "Export JSON" payload (`Export`);
- the component state, meaning the collection plus the selected id, as a class
  whose methods are the event handlers (`Compositor.Editor`).

The collection is stored bottom to top, and the list shows it reversed.
Numbers are modelled as exact `real`s. `Math.round` is modelled as
`floor(v + 0.5)` (`Geometry.Round`).

The class invariant `Valid` has three parts:
- ids are unique;
- there is at most one frame;
- a selection names a layer in the collection.

Every event handler keeps this invariant. The transitions are pure functions,
and the properties the application relies on are proved about them.
Those properties are:
- restacking is a permutation;
- it lands the dragged layer on the drop slot;
- it keeps the others in order and can be undone;
- there is only ever one frame;
- the photo count and photo names line up;
- committed sizes have a floor of 20;
- the resize handles never accept a box below 40;
- the export loses nothing.

## Model

| member | source | states |
|---|---|---|
| Layers.KindTag | src/const/const.ts:1 | a kind's tag is "frame" or "photo" |
| Layers.KindTagRoundTrip | src/const/const.ts:1 | exactly the two tags "frame" and "photo" name a kind, and each kind is read back from its own tag |
| Layers.Layer.LayerKind | src/const/const.ts:2-25 | a layer's kind is the frame kind exactly when it is the frame variant; frames carry only the base fields and a natural size, photos add position, size and rotation |
| Layers.PhotoCount | src/App.tsx:163 | the number of photo layers is at most the number of layers |
| Layers.PhotoCountAppend | src/App.tsx:163 | appending a layer raises the photo count by one exactly when the layer is a photo |
| Layers.FirstFrameIndex | src/App.tsx:74 | -1 exactly when there is no frame, otherwise the index of a frame with no frame before it |
| Layers.FindById | src/App.tsx:48-51 | -1 exactly when the id is absent, otherwise the first index carrying the id |
| Layers.FrameSize | src/App.tsx:74-78 | 1680 x 844 when there is no frame, otherwise the natural size of the first frame |
| Layers.SameIdsAndKindsKeepsInvariant | src/App.tsx:183-189 | an update that keeps ids and kinds in place keeps the id sequence, the presence of a frame, unique ids and the single-frame rule |
| Sequences.IndexOf | src/App.tsx:103-104 | -1 exactly when the element is absent, otherwise an index holding it with no earlier occurrence |
| Sequences.IndexOfDistinct | src/App.tsx:103-104 | in a list without duplicates, the index of the element at i is i |
| Sequences.ArrayMove | src/App.tsx:105 | the moved list has the same length and holds the moved element at the target index |
| Sequences.ArrayMoveKeepsOthers | src/App.tsx:105 | removing the moved element from the result leaves the list with the element removed from the source slot: all other elements keep their relative order |
| Sequences.ArrayMoveMultiset | src/App.tsx:105 | moving an element is a permutation |
| Sequences.ArrayMoveAt | src/App.tsx:105 | each position of the moved list holds the element of a computed source index |
| Sequences.ArrayMoveInverse | src/App.tsx:105 | moving back from the target to the source index restores the list |
| Sequences.Reverse | src/App.tsx:98-106 | the reversed list has the same length |
| Sequences.ReverseMultiset | src/App.tsx:98 | reversal is a permutation |
| Sequences.ReverseReverse | src/App.tsx:106 | reversing back restores the list, so the storage order is recovered from the view |
| Sequences.ReverseKeepsMembers | src/App.tsx:98 | the reversed list holds exactly the elements of the list |
| Ordering.TopToBottomIds | src/App.tsx:98 | the list view has one id per layer, with the last stored layer at the top and the first at the bottom |
| Ordering.TopToBottomIdsAt | src/App.tsx:98 | row k of the list view is the id of the layer at position k of the reversed collection |
| Ordering.IdMap | src/App.tsx:107 | the id-to-layer map has exactly the ids of the collection as keys, and each key maps to a layer carrying that id |
| Ordering.Lookup | src/App.tsx:108 | one layer per id, each taken from the map; with a map whose layers carry their keys, the result's ids are exactly the looked-up ids in order |
| Ordering.IdMapUnique | src/App.tsx:107 | with unique ids, the map sends each layer's id to that layer |
| Ordering.Reorder | src/App.tsx:99-109 | with no drop target, or a drop onto the dragged layer itself, the collection is unchanged; otherwise its length is kept |
| Ordering.ReorderMovesLayers | src/App.tsx:102-108 | with unique ids, the id-level restacking rebuilt through the id map equals reversing the layers, moving the dragged slot to the target slot, and reversing back |
| Ordering.ReorderIsPermutation | src/App.tsx:98-108 | with unique ids the result is a permutation of the input layers, records unchanged, and its ids stay unique |
| Ordering.ReorderLandsOnTarget | src/App.tsx:102-106 | in the top-to-bottom view the dragged id lands at the drop target's former index; removing it from both views leaves the other layers in the same order |
| Ordering.ReorderUndo | src/App.tsx:99-109 | dragging the layer back onto the layer that now sits at its old slot restores the original collection |
| Ordering.PermutationKeepsIds | src/App.tsx:98-108 | a permutation of the layers keeps every id |
| Ordering.ReorderKeepsWellFormed | src/App.tsx:98-108 | restacking keeps unique ids, the single-frame rule and every id |
| Ordering.ReorderExample | src/App.tsx:98-108 | dragging the top photo of [frame, a, b] onto the frame's row gives [b, frame, a] |
| Geometry.Round | src/App.tsx:158-159 | the rounded value is within half a unit of its argument, halves going up |
| Geometry.CommitDrag | src/App.tsx:180-190 | the photo with the id takes the surface's x and y and nothing else; every other layer, a frame with that id included, is unchanged; an unknown id leaves the collection unchanged |
| Geometry.CommittedSize | src/App.tsx:196-197 | the committed size is the scaled size, floored at 20 |
| Geometry.CommitTransform | src/App.tsx:191-216 | only the photo with the id changes, the length is kept, and an unknown id leaves the collection unchanged |
| Geometry.CommitTransformTarget | src/App.tsx:196-215 | the committed photo's width is the surface width times the x scale, floored at 20, and likewise its height with the y scale; so for any scale, zero and negative included, it is at least 20 by 20; its x, y and rotation come from the surface, and its id, name, visibility, source and natural size are kept |
| Geometry.CommitTransformExample | src/App.tsx:196-197 | a 100 by 50 photo scaled by 2 and 0.1 commits as 200 by 20 |
| Geometry.CommitDragKeepsIdsAndKinds | src/App.tsx:183-189 | the drag commit keeps every id and kind in place |
| Geometry.CommitTransformKeepsIdsAndKinds | src/App.tsx:202-215 | the transform commit keeps every id and kind in place |
| Geometry.BoundBox | src/App.tsx:387-389 | the old box is kept exactly when the proposal is narrower or lower than 40, otherwise the proposal is taken |
| Geometry.Gesture | src/App.tsx:387-389 | the box a run of proposals ends on is the start box or one of the proposals |
| Geometry.GestureKeepsMinimum | src/App.tsx:387-389 | from a box of at least 40 by 40, no run of proposals leaves a box below 40 in either dimension |
| Decimal.NatToString | src/App.tsx:163 | the rendered count is a non-empty run of digits, with a leading zero only for zero |
| Decimal.ParseNatToString | src/App.tsx:163 | reading the rendered count back gives the count |
| Decimal.NatToStringInjective | src/App.tsx:163 | different counts render differently, so photo names carry distinct numbers |
| Transitions.NewFrame | src/App.tsx:132-140 | the new frame is named "Frame", visible, with the given source and size; it reuses an existing frame's id, and takes the fresh id only when there is no frame |
| Transitions.AddFrame | src/App.tsx:141-145 | with no frame the new frame is appended; otherwise every frame is replaced in place and every other layer is kept |
| Transitions.AddFrameSingleton | src/App.tsx:133-145 | with at most one frame before, there is exactly one afterwards; an existing frame keeps its index and id, a new one is appended under the fresh id, and every non-frame layer is untouched |
| Transitions.AddFrameKeepsWellFormed | src/App.tsx:133-145 | with a fresh id the collection invariant is kept and no id is lost |
| Transitions.AddFrameTwice | src/App.tsx:133-145 | a second frame replaces the first at the same index under the same id, with the new source and size |
| Transitions.TargetWidth | src/App.tsx:158 | the target width is a whole number within half a unit of 40% of the frame width |
| Transitions.NewPhoto | src/App.tsx:158-173 | the new photo has the fresh id, is visible, has rotation 0, keeps the image's natural size and is named "Photo " followed by the photo count plus one |
| Transitions.NewPhotoGeometry | src/App.tsx:158-169 | width, height, x and y are whole numbers, each within half a unit of its unrounded value, which is `Math.round` exactly; the width is within half a unit of 40% of the frame width; the height follows the image's aspect ratio; the photo is centred on the frame (1680 x 844 with no frame), each to within half a unit |
| Transitions.NewPhotoExample | src/App.tsx:158-169 | a 500 x 500 image on a 1680 x 844 frame becomes a 672 x 672 photo at (504, 86) named "Photo 1" |
| Transitions.AddPhoto | src/App.tsx:174 | exactly one layer, the new photo, is appended and every existing layer is unchanged |
| Transitions.AddPhotoCounts | src/App.tsx:163-174 | the photo count goes from N to N+1 |
| Transitions.AddPhotoName | src/App.tsx:163-174 | the new photo's name carries the photo count after the addition |
| Transitions.AddPhotoKeepsWellFormed | src/App.tsx:161-174 | the ids become the old ids followed by the fresh id; the presence of a frame is kept; with a fresh id the collection invariant is kept |
| Transitions.ToggleVisible | src/App.tsx:431-437 | visibility flips on the layers with the id and on no other; every other field, the order, the ids and the kinds are unchanged |
| Transitions.ToggleVisibleTwice | src/App.tsx:432-436 | toggling the same row twice restores the collection |
| Export.ExportEntry | src/App.tsx:221-245 | an entry carries the layer's id, name, visibility and source; its type is the layer kind's tag; it has the photo shape exactly for photos |
| Export.ExportStack | src/App.tsx:221-246 | the stack has one entry per layer, in storage order, each with its layer's id and type |
| Export.ExportLayout | src/App.tsx:218-247 | the payload's stack is the exported stack; its frame size is the first frame's natural size, or 1680 x 844 without a frame |
| Export.ImportStack | src/App.tsx:221-246 | a stack that reads back gives one layer per entry |
| Export.ImportExportEntry | src/App.tsx:222-245 | every field of a layer can be read back from its entry |
| Export.ExportRoundTrip | src/App.tsx:218-247 | reading the exported stack back gives exactly the collection, order and every field included |
| Compositor.HandleTarget | src/App.tsx:48-51 | the handles attach only to the selected id, and only when it is in the collection |
| Compositor.HandleTargetExact | src/App.tsx:373 | the handles are shown exactly when the first layer carrying the selected id is a photo |
| Compositor.HandleTargetWellFormed | src/App.tsx:373 | with unique ids, the handles attach to a selected layer exactly when it is a photo |
| Compositor.Editor.constructor | src/App.tsx:45-46 | the editor starts with no layers and no selection |
| Compositor.Editor.OnDragEnd | src/App.tsx:99-109 | the collection becomes its restacking, a permutation of the old one; the selection and the invariant are kept |
| Compositor.Editor.AddFrame | src/App.tsx:126-149 | the collection becomes the frame add-or-replace, which holds a frame; the selection is cleared; the invariant is kept |
| Compositor.Editor.AddPhoto | src/App.tsx:151-178 | the photo is appended, the photo count rises by one, and the new photo is selected; the invariant is kept |
| Compositor.Editor.OnPhotoDragEnd | src/App.tsx:180-190 | without a registered node nothing changes; otherwise the drag is committed; the selection and the invariant are kept |
| Compositor.Editor.OnPhotoTransformEnd | src/App.tsx:191-216 | without a registered node nothing changes; otherwise the transform is committed; the selection and the invariant are kept |
| Compositor.Editor.ToggleVisible | src/App.tsx:431-437 | the collection becomes its toggled version; the selection and the invariant are kept |
| Compositor.Editor.Select | src/App.tsx:438 | a row click or a photo click (line 366) selects that layer and leaves the collection unchanged |
| Compositor.Editor.OnStageMouseDown | src/App.tsx:340-342 | a mouse-down on the empty background clears the selection; one on a layer keeps it; the collection is unchanged |
| Compositor.Editor.ExportJSON | src/App.tsx:218-247 | the payload is the export of the current collection, one entry per layer |
| Compositor.Editor.Handles | src/App.tsx:373 | the handles are attached, if at all, to the selected layer |

## Left out

- Rendering, JSX, styling and the row, photo and frame components (src/App.tsx:252-446 apart from the handlers above) are not modelled: they are presentation only.
- The canvas node registry and in-place node mutation are not modelled. This covers `nodeRefs` and resetting the node's scale and size after a transform (src/App.tsx:54, 181, 194-201). The surface's post-gesture values are inputs to the handlers, and a missing node is an absent input.
- Choosing and decoding a file, image loading and object URLs are browser input (src/App.tsx:34-42, 127-130, 137, 148, 152-157, 177). An image source is an opaque string, and the image's natural size is an input.
- The viewport measurement is left out: DOM measurement and floating-point division. This covers the container size, the `dimensions` effect and the stage scale (src/App.tsx:20-33, 58-86). The fit-to-viewport `resizeImg` (src/App.tsx:111-124) is left out for the same reason. So `Editor.AddFrame` takes as its size the already-fitted values that `resizeImg` would give.
- `nanoid` id generation is a fresh-id parameter. The handlers require that id to be absent from the collection.
- IEEE floating point (rounding errors, NaN, infinities) is not modelled; numbers are exact reals.
- Logging and the alert in the export are left out: the model returns the payload instead of logging it.
- The handlers read the render-time collection for the frame id and the photo count, then update the latest collection (src/App.tsx:133 vs 142, 163 vs 174). Each handler here works on a single snapshot.
- Ordering.Reorder: requires both the dragged id and the drop id to be in the collection. The list only reports ids it renders, so the source never hits its `indexOf` result of -1 here. The move with a negative index that would follow is not modelled.
- Transitions.NewPhoto: requires a positive natural width. For a zero width the source divides by zero, and the resulting NaN geometry is not modelled.
- Compositor.Editor.Select: requires the id to be in the collection, because clicks come only from rendered rows and photos.
- The pointer sensor's 6-pixel activation distance and the collision detection of the list (src/App.tsx:95-97, 418) belong to the list library and are not modelled.
