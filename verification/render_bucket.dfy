/**
 `dp::RenderBucket`: one vertex array buffer plus an ordered list of overlay
 handles. Every operation is a pure function of the bucket that returns what it
 does to its collaborators (a call trace, the overlay tree, the released
 objects). `Update` changes only the transform each handle was last placed
 for; `CollectOverlayHandles` and `Render` leave the bucket as it was.
 */
module RenderBucket {
  import opened Seqs
  import opened Overlays
  import opened Mutators
  import opened Trace

  /** The owned buffer; `id` stands for the object's identity. */
  datatype VertexArrayBuffer = VertexArrayBuffer(id: nat)

  datatype Bucket<Screen> = Bucket(buffer: VertexArrayBuffer, overlays: seq<OverlayHandle<Screen>>)

  /** The bucket after an operation and the calls the operation made. */
  datatype Step<Screen> = Step(bucket: Bucket<Screen>, calls: seq<Call<Screen>>)

  /** Indexes of one screen-aligned quad (two triangles): the per-overlay
      pre-sizing of the index mutator. */
  const IndexesPerOverlay: nat := 6

  /** The constructor: takes over the buffer, owns no handle yet. */
  function NewBucket<Screen>(buffer: VertexArrayBuffer): (b: Bucket<Screen>)
    ensures b.buffer == buffer && |b.overlays| == 0
  {
    Bucket(buffer, [])
  }

  /** A non-owning view of the buffer. */
  function GetBuffer<Screen>(b: Bucket<Screen>): (buffer: VertexArrayBuffer) {
    b.buffer
  }

  /** Takes over one more handle, after the ones already owned. */
  function AddOverlayHandle<Screen>(b: Bucket<Screen>, h: OverlayHandle<Screen>): (r: Bucket<Screen>)
    ensures r.buffer == b.buffer
    ensures |r.overlays| == |b.overlays| + 1
    ensures r.overlays[..|b.overlays|] == b.overlays
    ensures r.overlays[|b.overlays|] == h
  {
    b.(overlays := b.overlays + [h])
  }

  /** Pushes the camera transform to every handle: each handle recomputes its
      geometry for it, and nothing else about the bucket changes. */
  function Update<Screen>(b: Bucket<Screen>, modelView: Screen): (r: Step<Screen>)
    ensures r.bucket.buffer == b.buffer
    ensures |r.bucket.overlays| == |b.overlays|
    ensures forall i :: 0 <= i < |b.overlays| ==> r.bucket.overlays[i] == UpdateHandle(b.overlays[i], modelView)
    ensures Ids(r.bucket.overlays) == Ids(b.overlays)
    ensures |r.calls| == |b.overlays|
    ensures forall i :: 0 <= i < |b.overlays| ==> r.calls[i] == OverlayUpdate(b.overlays[i].id, modelView)
  {
    var overlays := Map(b.overlays, (h: OverlayHandle<Screen>) => UpdateHandle(h, modelView));
    Step(b.(overlays := overlays), Map(b.overlays, (h: OverlayHandle<Screen>) => OverlayUpdate(h.id, modelView)))
  }

  /** The overlay tree as far as the bucket sees it: the handles added to it
      this frame, in the order they were added. */
  datatype OverlayTree = OverlayTree(handles: seq<nat>)

  /** Hands a non-owning reference of every handle to the overlay tree. */
  function CollectOverlayHandles<Screen>(b: Bucket<Screen>, tree: OverlayTree): (r: (Bucket<Screen>, OverlayTree))
    ensures r.0 == b
    ensures |r.1.handles| == |tree.handles| + |b.overlays|
    ensures r.1.handles[..|tree.handles|] == tree.handles
    ensures forall i :: 0 <= i < |b.overlays| ==> r.1.handles[|tree.handles| + i] == b.overlays[i].id
  {
    (b, OverlayTree(tree.handles + Ids(b.overlays)))
  }

  /** The state of a render pass: the two mutators and the calls made so far. */
  datatype Pass<Screen> = Pass(indexMutator: IndexMutator, attributeMutator: AttributeMutator<Screen>, calls: seq<Call<Screen>>)

  /** The attribute entry a handle writes for `screen`: computed from the
      handle's current state, so it carries the placement `Update` left. */
  function AttributeEntry<Screen>(screen: Screen): (entry: OverlayHandle<Screen> -> AttributeMutation<Screen>) {
    (h: OverlayHandle<Screen>) => AttributeMutation(h.id, h.placement, screen)
  }

  /** One handle's turn in the render pass. */
  function AccumulateMutations<Screen>(h: OverlayHandle<Screen>, p: Pass<Screen>, screen: Screen): (r: Pass<Screen>)
    ensures !IsVisible(h) ==> r == p
    ensures r.indexMutator.capacityHint == p.indexMutator.capacityHint
    ensures |p.calls| <= |r.calls| <= |p.calls| + 2 && r.calls[..|p.calls|] == p.calls
    ensures forall i :: |p.calls| <= i < |r.calls| ==> IsEmission(r.calls[i]) && r.calls[i].handle == h.id
    ensures IsVisible(h) ==> |r.calls| > |p.calls| && r.calls[|p.calls|] == GetElementIndexes(h.id)
    ensures |p.attributeMutator.mutations| <= |r.attributeMutator.mutations|
    ensures r.attributeMutator.mutations[..|p.attributeMutator.mutations|] == p.attributeMutator.mutations
    ensures forall i :: |p.attributeMutator.mutations| <= i < |r.attributeMutator.mutations| ==> r.attributeMutator.mutations[i] == AttributeEntry(screen)(h)
  {
    if !IsVisible(h) then p
    else
      var q := Pass(AppendIndexes(p.indexMutator, h.id), p.attributeMutator, p.calls + [GetElementIndexes(h.id)]);
      if HasDynamicAttributes(h) then
        Pass(q.indexMutator, AppendAttributes(q.attributeMutator, h.id, h.placement, screen), q.calls + [GetAttributeMutation(h.id, screen)])
      else q
  }

  /** The whole render pass: every handle's turn, in list order. */
  function AccumulateAll<Screen>(hs: seq<OverlayHandle<Screen>>, p: Pass<Screen>, screen: Screen): (r: Pass<Screen>)
    ensures r.indexMutator.capacityHint == p.indexMutator.capacityHint
    ensures |p.calls| <= |r.calls| && r.calls[..|p.calls|] == p.calls
    ensures forall i :: |p.calls| <= i < |r.calls| ==> IsEmission(r.calls[i])
    ensures |p.attributeMutator.mutations| <= |r.attributeMutator.mutations|
    ensures r.attributeMutator.mutations[..|p.attributeMutator.mutations|] == p.attributeMutator.mutations
    ensures forall i :: |p.attributeMutator.mutations| <= i < |r.attributeMutator.mutations| ==> r.attributeMutator.mutations[i].screen == screen
    decreases |hs|
  {
    if |hs| == 0 then p
    else AccumulateAll(hs[1..], AccumulateMutations(hs[0], p, screen), screen)
  }

  /** One handle's contribution to the mutators: its id to the index side when
      it is visible, and to the attribute side as well when it is also dynamic. */
  lemma AccumulateMutationsWrites<Screen>(h: OverlayHandle<Screen>, p: Pass<Screen>, screen: Screen)
    ensures var r := AccumulateMutations(h, p, screen);
      && r.indexMutator.indexes == p.indexMutator.indexes + (if IsVisible(h) then [h.id] else [])
      && Map(r.attributeMutator.mutations, MutationHandle) == Map(p.attributeMutator.mutations, MutationHandle) + (if EmitsAttributes(h) then [h.id] else [])
  {
    if EmitsAttributes(h) {
      MapAppend(p.attributeMutator.mutations, [AttributeMutation(h.id, h.placement, screen)], MutationHandle);
    }
  }

  /** One handle's calls: indexes asked when it is visible, attributes asked
      as well when it is also dynamic. */
  lemma AccumulateMutationsAsks<Screen>(h: OverlayHandle<Screen>, p: Pass<Screen>, screen: Screen)
    ensures var r := AccumulateMutations(h, p, screen);
      && IndexEmissions(r.calls) == IndexEmissions(p.calls) + (if IsVisible(h) then [h.id] else [])
      && AttributeEmissions(r.calls) == AttributeEmissions(p.calls) + (if EmitsAttributes(h) then [h.id] else [])
  {
    var r := AccumulateMutations(h, p, screen);
    var added := r.calls[|p.calls|..];
    assert r.calls == p.calls + added;
    EmissionsAppend(p.calls, added);
    if !IsVisible(h) {
      assert added == [];
    } else if !HasDynamicAttributes(h) {
      assert added == [GetElementIndexes(h.id)];
    } else {
      assert added == [GetElementIndexes(h.id), GetAttributeMutation(h.id, screen)];
      assert added[1..] == [GetAttributeMutation(h.id, screen)];
    }
  }

  lemma IdsOfFilterCons<Screen>(hs: seq<OverlayHandle<Screen>>, p: OverlayHandle<Screen> -> bool)
    requires |hs| > 0
    ensures Ids(Filter(hs, p)) == (if p(hs[0]) then [hs[0].id] else []) + Ids(Filter(hs[1..], p))
  {
    var head := if p(hs[0]) then [hs[0]] else [];
    assert Filter(hs, p) == head + Filter(hs[1..], p);
    MapAppend(head, Filter(hs[1..], p), HandleId);
  }

  /** What the render pass writes into the mutators: the visible handles'
      indexes and the visible dynamic handles' attributes, each in list order. */
  lemma {:induction false} AccumulateAllWrites<Screen>(hs: seq<OverlayHandle<Screen>>, p: Pass<Screen>, screen: Screen)
    ensures var r := AccumulateAll(hs, p, screen);
      && r.indexMutator.indexes == p.indexMutator.indexes + Ids(Filter(hs, IsVisible))
      && Map(r.attributeMutator.mutations, MutationHandle) == Map(p.attributeMutator.mutations, MutationHandle) + Ids(Filter(hs, EmitsAttributes))
    decreases |hs|
  {
    if |hs| == 0 {
      assert Filter(hs, IsVisible) == [] && Filter(hs, EmitsAttributes) == [];
    } else {
      var p1 := AccumulateMutations(hs[0], p, screen);
      var r := AccumulateAll(hs, p, screen);
      assert r == AccumulateAll(hs[1..], p1, screen);
      AccumulateMutationsWrites(hs[0], p, screen);
      AccumulateAllWrites(hs[1..], p1, screen);
      IdsOfFilterCons(hs, IsVisible);
      IdsOfFilterCons(hs, EmitsAttributes);
      var v := if IsVisible(hs[0]) then [hs[0].id] else [];
      var d := if EmitsAttributes(hs[0]) then [hs[0].id] else [];
      assert r.indexMutator.indexes == (p.indexMutator.indexes + v) + Ids(Filter(hs[1..], IsVisible));
      var before := Map(p.attributeMutator.mutations, MutationHandle);
      assert Map(r.attributeMutator.mutations, MutationHandle) == (before + d) + Ids(Filter(hs[1..], EmitsAttributes));
      AppendAssociative(p.indexMutator.indexes, v, Ids(Filter(hs[1..], IsVisible)));
      AppendAssociative(before, d, Ids(Filter(hs[1..], EmitsAttributes)));
    }
  }

  /** The attribute entries the render pass writes, in full: one per visible
      dynamic handle, in list order, each from that handle's current state. */
  lemma {:induction false} AccumulateAllEntries<Screen>(hs: seq<OverlayHandle<Screen>>, p: Pass<Screen>, screen: Screen)
    ensures AccumulateAll(hs, p, screen).attributeMutator.mutations
      == p.attributeMutator.mutations + Map(Filter(hs, EmitsAttributes), AttributeEntry(screen))
    decreases |hs|
  {
    if |hs| == 0 {
      assert Filter(hs, EmitsAttributes) == [];
    } else {
      var p1 := AccumulateMutations(hs[0], p, screen);
      var before := p.attributeMutator.mutations;
      var d := if EmitsAttributes(hs[0]) then [AttributeEntry(screen)(hs[0])] else [];
      assert p1.attributeMutator.mutations == before + d;
      AccumulateAllEntries(hs[1..], p1, screen);
      MapFilterCons(hs, EmitsAttributes, AttributeEntry(screen));
      AppendAssociative(before, d, Map(Filter(hs[1..], EmitsAttributes), AttributeEntry(screen)));
    }
  }

  /** Which handles the render pass asks, and in what order: the visible ones
      for indexes and the visible dynamic ones for attributes. */
  lemma {:induction false} AccumulateAllAsks<Screen>(hs: seq<OverlayHandle<Screen>>, p: Pass<Screen>, screen: Screen)
    ensures var r := AccumulateAll(hs, p, screen);
      && IndexEmissions(r.calls) == IndexEmissions(p.calls) + Ids(Filter(hs, IsVisible))
      && AttributeEmissions(r.calls) == AttributeEmissions(p.calls) + Ids(Filter(hs, EmitsAttributes))
    decreases |hs|
  {
    if |hs| == 0 {
      assert Filter(hs, IsVisible) == [] && Filter(hs, EmitsAttributes) == [];
    } else {
      var p1 := AccumulateMutations(hs[0], p, screen);
      var r := AccumulateAll(hs, p, screen);
      assert r == AccumulateAll(hs[1..], p1, screen);
      AccumulateMutationsAsks(hs[0], p, screen);
      AccumulateAllAsks(hs[1..], p1, screen);
      IdsOfFilterCons(hs, IsVisible);
      IdsOfFilterCons(hs, EmitsAttributes);
      var v := if IsVisible(hs[0]) then [hs[0].id] else [];
      var d := if EmitsAttributes(hs[0]) then [hs[0].id] else [];
      assert IndexEmissions(r.calls) == (IndexEmissions(p.calls) + v) + Ids(Filter(hs[1..], IsVisible));
      assert AttributeEmissions(r.calls) == (AttributeEmissions(p.calls) + d) + Ids(Filter(hs[1..], EmitsAttributes));
      AppendAssociative(IndexEmissions(p.calls), v, Ids(Filter(hs[1..], IsVisible)));
      AppendAssociative(AttributeEmissions(p.calls), d, Ids(Filter(hs[1..], EmitsAttributes)));
    }
  }

  /** A handle's attribute request always comes straight after its own index
      request: the pass never asks an invisible handle for attributes. */
  lemma {:induction false} AccumulateAllPairsRequests<Screen>(hs: seq<OverlayHandle<Screen>>, p: Pass<Screen>, screen: Screen)
    requires AttributesFollowIndexes(p.calls)
    ensures AttributesFollowIndexes(AccumulateAll(hs, p, screen).calls)
    decreases |hs|
  {
    if |hs| > 0 {
      var p1 := AccumulateMutations(hs[0], p, screen);
      forall i | 0 <= i < |p1.calls| && p1.calls[i].GetAttributeMutation?
        ensures 0 < i && p1.calls[i - 1] == GetElementIndexes(p1.calls[i].handle)
      {
        if i < |p.calls| {
          assert p1.calls[i] == p.calls[i] && p1.calls[i - 1] == p.calls[i - 1];
        }
      }
      AccumulateAllPairsRequests(hs[1..], p1, screen);
    }
  }

  /** A fresh pass for a bucket with `n` handles. */
  function StartPass<Screen>(n: nat): (p: Pass<Screen>) {
    Pass(NewIndexMutator(IndexesPerOverlay * n), NewAttributeMutator(), [])
  }

  /** The draw of one frame. */
  function Render<Screen>(b: Bucket<Screen>, screen: Screen): (calls: seq<Call<Screen>>)
    ensures |calls| > 0 && IsDraw(calls[|calls| - 1])
  {
    if |b.overlays| == 0 then [BufferRender]
    else
      var pass := AccumulateAll(b.overlays, StartPass(|b.overlays|), screen);
      pass.calls + [ApplyMutation(pass.indexMutator, pass.attributeMutator), BufferRender]
  }

  /** What the destructor releases. */
  datatype Release = BufferDestroy(buffer: nat) | OverlayDelete(handle: nat)

  /** The destructor: releases the buffer, then every owned handle in list order. */
  function Destroy<Screen>(b: Bucket<Screen>): (released: seq<Release>)
    ensures |released| == |b.overlays| + 1
    ensures released[0] == BufferDestroy(b.buffer.id)
    ensures forall i :: 0 <= i < |b.overlays| ==> released[i + 1] == OverlayDelete(b.overlays[i].id)
  {
    [BufferDestroy(b.buffer.id)] + Map(b.overlays, (h: OverlayHandle<Screen>) => OverlayDelete(h.id))
  }
}
