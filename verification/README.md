# Render bucket overlay batching, modelled in Dafny

A model of `dp::RenderBucket` in the drape rendering layer: the object that
owns one vertex array buffer and an ordered list of overlay handles (labels,
icons) and runs their per-frame cycle.

- `AddOverlayHandle` takes over one more handle and appends it.
- `Update` pushes the camera transform to every handle, in list order.
- `CollectOverlayHandles` hands every handle, in list order, to the overlay
  tree, which resolves collisions and decides visibility.
- `Render` decides what reaches the GPU. A bucket without handles only draws.
  Otherwise it opens an index mutator pre-sized to six indexes per handle and
  an attribute mutator. It then walks the handles in list order. A visible
  handle writes its indexes. A visible handle with dynamic attributes also
  writes its attribute mutation for the current screen. The buffer applies
  both mutators once, and then draws.

The bucket is an immutable value (`RenderBucket.Bucket`): a buffer identity and
a sequence of `Overlays.OverlayHandle` records. A record holds an identity,
the visibility flag left by the last resolution pass, the dynamic-attribute
flag, and the camera transform its screen geometry was last computed for. Every operation is a pure function. `Update` and `Render` return the
calls they make on the handles and the buffer as a `Trace.Call` sequence:
overlay update, index and attribute requests, mutation apply, and draw.
`CollectOverlayHandles` returns the overlay tree with the handles it received,
and `Destroy` returns what it releases. The properties are stated over these
results. They are proved against an independent reference, the
order-preserving `Seqs.Filter` of the handle list.
The camera transform (`ScreenBase`) is an opaque type parameter `Screen`.

Modules, leaf first:

- `Seqs` (`seqs.dfy`): map, filter and subsequence, with their lemmas.
- `Overlays` (`overlay_handle.dfy`): the handle's capability set as the
  bucket uses it.
- `Mutators` (`mutators.dfy`): the two per-frame accumulators. Each records
  which handle wrote into it, in order; an attribute entry also records the
  placement of the handle that computed it. The index mutator's hint only
  pre-sizes it, so more entries than the hint are accepted.
- `Trace` (`trace.dfy`): the calls on handles and buffer, and the projections
  onto index and attribute requests.
- `RenderBucket` (`render_bucket.dfy`): the bucket and its operations,
  including the helper `AccumulateMutations` and the render pass.
- `RenderBucketProperties` (`render_bucket_properties.dfy`): what one frame
  promises.

The destructor releases the buffer first and then every handle in list order
(drape/render_bucket.cpp:21-22), and `RenderBucket.Destroy` states that order.
The constructor stores the buffer it is given and checks nothing
(drape/render_bucket.cpp:14-17). The model has no null buffer value (see
Left out).

## Model

| member | source | states |
|---|---|---|
| `RenderBucket.NewBucket` | drape/render_bucket.cpp:14-17 | a new bucket owns the buffer it was given and no overlay handle |
| `RenderBucket.Destroy` | drape/render_bucket.cpp:19-23 | destruction releases the buffer first, then one handle release per list entry, in list order |
| `RenderBucketProperties.DestroyReleasesEachHandleOnce` | drape/render_bucket.cpp:19-23 | when no handle was added twice, the buffer and every owned handle are each released exactly once |
| `RenderBucketProperties.BufferNeverReplaced` | drape/render_bucket.cpp:14-46 | `GetBuffer` returns the buffer given at construction, and add, update and collect keep the buffer it returns |
| `RenderBucket.AddOverlayHandle` | drape/render_bucket.cpp:30-33 | exactly one handle is appended at the end; earlier handles and their order are unchanged, and so is the buffer |
| `RenderBucketProperties.AddOverlayHandleKeepsDuplicates` | drape/render_bucket.cpp:30-33 | no deduplication: the owned multiset grows by exactly the added handle, even one already owned |
| `RenderBucketProperties.AddOverlayHandleKeepsDistinct` | drape/render_bucket.cpp:30-33 | adding to distinct handles keeps them distinct exactly when the new handle is not already owned |
| `Overlays.UpdateHandle` | drape/render_bucket.cpp:37-39 | one handle update places the handle for the given transform and keeps its identity and both flags |
| `RenderBucket.Update` | drape/render_bucket.cpp:35-40 | one overlay `Update` per owned handle, in list order, each with the same transform; every handle is placed for that transform, and ids, flags, order and buffer are unchanged |
| `RenderBucketProperties.UpdateIsIdempotent` | drape/render_bucket.cpp:35-40 | updating twice with the same transform leaves the same bucket, makes the same calls and gives the same next render as updating once |
| `RenderBucketProperties.UpdateDistinguishesTransforms` | drape/render_bucket.cpp:35-40 | with at least one handle, updates with two different transforms leave different placements recorded in the model |
| `RenderBucketProperties.UpdateKeepsRender` | drape/render_bucket.cpp:51-62 | an update alone leaves the next render's requests unchanged: the same calls in the same order, the same applied index side, and the same writer for every attribute entry |
| `RenderBucketProperties.UpdatePlacesRenderedAttributes` | drape/render_bucket.cpp:35-40 | after an update, every attribute entry the next render applies is computed from geometry placed for that update's transform |
| `RenderBucketProperties.RenderFollowsUpdate` | drape/render_bucket.cpp:56-60 | with a visible dynamic handle, the applied attribute entry carries the placement of the last update, so in the model two different transforms give different recorded renders |
| `RenderBucketProperties.AccumulateAllIgnoresPlacement` | drape/render_bucket.cpp:51-62 | which handles the pass asks, and the index side it writes, depend only on identity and both flags, not on placement |
| `RenderBucket.CollectOverlayHandles` | drape/render_bucket.cpp:42-46 | the tree receives one `Add` per list entry, in list order, after what it already held; the bucket keeps every handle |
| `RenderBucket.AccumulateMutations` | drape/render_bucket.cpp:51-62 | an invisible handle leaves the pass untouched; a visible one is asked for indexes first and at most once more, only it is asked, earlier calls are kept, the index hint is kept, and any attribute entry it adds is computed from its own current state |
| `RenderBucket.AccumulateMutationsWrites` | drape/render_bucket.cpp:56-60 | one handle writes its indexes iff visible, and its attribute mutation iff visible and dynamic |
| `RenderBucket.AccumulateMutationsAsks` | drape/render_bucket.cpp:56-60 | one handle is asked for indexes iff visible, and for attributes iff visible and dynamic |
| `RenderBucket.AccumulateAll` | drape/render_bucket.cpp:73-76 | the render pass keeps the calls and attribute mutations already made, adds only index and attribute requests, computes every new attribute mutation for the rendered screen, and keeps the index hint |
| `RenderBucket.AccumulateAllEntries` | drape/render_bucket.cpp:56-60 | the attribute entries the pass writes are exactly one per visible dynamic handle, in list order, each computed from that handle's current state for the rendered screen |
| `RenderBucket.AccumulateAllWrites` | drape/render_bucket.cpp:73-76 | after the pass the index mutator holds the visible handles and the attribute mutator the visible dynamic handles, filtered from the list in order |
| `RenderBucket.AccumulateAllAsks` | drape/render_bucket.cpp:73-76 | the pass asks the visible handles for indexes and the visible dynamic handles for attributes, filtered from the list in order |
| `RenderBucket.AccumulateAllPairsRequests` | drape/render_bucket.cpp:56-60 | the pass only asks a handle for attributes right after asking that same handle for indexes |
| `Overlays.AttributeEmittersAreVisibleSubsequence` | drape/render_bucket.cpp:56-60 | the handles asked for attributes are the dynamic handles among the visible ones, a subsequence of them |
| `RenderBucket.Render` | drape/render_bucket.cpp:66-81 | every render ends with the draw call |
| `RenderBucketProperties.PassOnlyEmits` | drape/render_bucket.cpp:73-80 | with handles, the render is the pass, then one mutation apply, then the draw; the pass itself neither applies nor draws |
| `RenderBucketProperties.RenderFastPath` | drape/render_bucket.cpp:68-80 | a bucket with no handles makes no mutation apply and exactly one draw call |
| `RenderBucketProperties.RenderDrawsOnce` | drape/render_bucket.cpp:80 | every render makes exactly one draw call and makes it last, even when no handle is visible |
| `RenderBucketProperties.RenderAppliesOnceBeforeDraw` | drape/render_bucket.cpp:77-80 | with handles, the mutation is applied exactly once, after every index and attribute request and right before the draw |
| `RenderBucketProperties.RenderCapacityHint` | drape/render_bucket.cpp:70-72 | with N > 0 handles the applied index mutator was pre-sized to exactly 6·N, whatever number are visible |
| `RenderBucketProperties.RenderAppliedMutation` | drape/render_bucket.cpp:71-78 | the applied index mutator holds exactly the visible handles and the attribute mutator exactly the entries of the visible dynamic ones, in list order, each from that handle's current state, all for the rendered screen |
| `RenderBucketProperties.RenderIndexEmissions` | drape/render_bucket.cpp:56-58 | the handles asked for indexes are exactly the visible ones, in list order; invisible handles are asked nothing |
| `RenderBucketProperties.RenderAttributeEmissions` | drape/render_bucket.cpp:56-60 | the handles asked for attributes are exactly the visible dynamic ones, in list order, a subsequence of those asked for indexes |
| `Overlays.RejectedIdAbsent` | drape/render_bucket.cpp:56 | among handles with distinct ids, a handle the filter rejects has no id among those kept |
| `RenderBucketProperties.RenderSkipsInvisible` | drape/render_bucket.cpp:56-58 | among handles with distinct ids, an invisible handle is asked neither for indexes nor for attributes |
| `RenderBucketProperties.RenderPairsRequests` | drape/render_bucket.cpp:56-60 | a handle's attribute request comes straight after its own index request |
| `RenderBucketProperties.ThreeVisibleOneDynamic` | drape/render_bucket.cpp:66-81 | three visible handles, one dynamic: indexes asked of all three in insertion order, attributes of the dynamic one only, hint 18, then the draw |
| `RenderBucketProperties.NoneVisibleStillDraws` | drape/render_bucket.cpp:66-81 | two invisible handles: nothing is asked of them, the empty mutation with hint 12 is applied, and the draw still happens |

## Left out

- The internals of `VertexArrayBuffer`, `IndexBufferMutator` and `AttributeBufferMutator` are not modelled. Their sources are not part of this model. The buffer is an identity, a mutation apply and a draw are trace entries, and a mutator records which handle wrote into it, not the raw index values or attribute bytes.
- `OverlayTree` collision resolution and how `IsVisible` is computed are not modelled. Visibility is an input flag on each handle record, as the last resolution pass left it.
- `ScreenBase` transform maths is not modelled. The transform is an opaque type parameter, and a handle's screen geometry is abstracted to the transform it was last computed for (`Overlays.Placement`). An attribute entry's bytes are abstracted to the handle, that placement and the rendered screen.
- RenderBucketProperties.UpdateDistinguishesTransforms: shows only that the model records the transform a handle was placed for. The source's recomputed geometry need not differ for two transforms that put a handle at the same pixels, so it does not promise different handle state.
- RenderBucketProperties.RenderFollowsUpdate: shows only that a rendered attribute entry records its handle's placement. Two transforms can yield equal attribute bytes and so equal renders in the source. Equalities proved about the model (`UpdateIsIdempotent`, `UpdateKeepsRender`) carry over to the program; inequalities about placements do not.
- RenderBucket.Destroy: releases once per list entry. Single ownership (`MasterPointer`) is what rules out a handle listed twice, and it is not modelled, so "each handle exactly once" is stated only under `DistinctIds`, by `RenderBucketProperties.DestroyReleasesEachHandleOnce`.
- The `TransferPointer`/`MasterPointer`/`RefPointer` ownership machinery is not modelled. "No handle is owned by two buckets" is a property of those types and is not stated. Actual memory release is only a trace entry in `RenderBucket.Destroy`.
- A null buffer at construction is not modelled. `VertexArrayBuffer` has no null value, and the constructor does not check for one.
- `RenderBucket.GetBuffer` carries no contract of its own, because it only returns the owned buffer. What it promises is stated by `RenderBucketProperties.BufferNeverReplaced`.
- RenderBucketProperties.RenderCapacityHint: states 6·N over unbounded integers. The parameter width of `IndexBufferMutator`'s constructor is not part of this model, so any narrowing of a very large hint is not modelled.
- Threading and concurrency between buckets are not modelled. The model is a sequential value semantics.
- geometry/angles.hpp is not modelled: it is floating-point trigonometry outside the bucket.
- iphone/Maps/Classes/CustomAlert/DownloadTransitMapsAlert/MWMDownloadTransitMapAlert.h is not modelled: it declares a UI alert and holds no logic.
