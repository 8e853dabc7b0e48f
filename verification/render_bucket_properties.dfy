/**
 What one frame of a render bucket promises, stated over the call traces the
 model's operations return.
 */
module RenderBucketProperties {
  import opened Seqs
  import opened Overlays
  import opened Mutators
  import opened Trace
  import opened RenderBucket

  /** The calls of the render pass proper, before the mutation is applied. */
  lemma PassOnlyEmits<Screen>(b: Bucket<Screen>, screen: Screen)
    requires |b.overlays| > 0
    ensures var pass := AccumulateAll(b.overlays, StartPass(|b.overlays|), screen);
      && Render(b, screen) == pass.calls + [ApplyMutation(pass.indexMutator, pass.attributeMutator), BufferRender]
      && Filter(pass.calls, IsDraw) == [] && Filter(pass.calls, IsApply) == []
  {
    var pass := AccumulateAll(b.overlays, StartPass<Screen>(|b.overlays|), screen);
    FilterNone(pass.calls, IsDraw);
    FilterNone(pass.calls, IsApply);
  }

  /** A bucket without handles skips the mutation step and only draws. */
  lemma RenderFastPath<Screen>(b: Bucket<Screen>, screen: Screen)
    requires |b.overlays| == 0
    ensures Render(b, screen) == [BufferRender]
    ensures |Filter(Render(b, screen), IsApply)| == 0
    ensures |Filter(Render(b, screen), IsDraw)| == 1
  {
  }

  /** Every render ends with the bucket's one draw call, whether or not any
      handle is visible. */
  lemma RenderDrawsOnce<Screen>(b: Bucket<Screen>, screen: Screen)
    ensures var calls := Render(b, screen);
      |Filter(calls, IsDraw)| == 1 && IsDraw(calls[|calls| - 1])
  {
    if |b.overlays| > 0 {
      var pass := AccumulateAll(b.overlays, StartPass<Screen>(|b.overlays|), screen);
      PassOnlyEmits(b, screen);
      FilterAppend(pass.calls, [ApplyMutation(pass.indexMutator, pass.attributeMutator), BufferRender], IsDraw);
    }
  }

  /** With handles, the accumulated mutation is applied exactly once, after
      every index and attribute request and right before the draw call. */
  lemma RenderAppliesOnceBeforeDraw<Screen>(b: Bucket<Screen>, screen: Screen)
    requires |b.overlays| > 0
    ensures var calls := Render(b, screen);
      && |calls| >= 2
      && IsApply(calls[|calls| - 2]) && IsDraw(calls[|calls| - 1])
      && |Filter(calls, IsApply)| == 1
      && forall i :: 0 <= i < |calls| - 2 ==> IsEmission(calls[i])
  {
    var pass := AccumulateAll(b.overlays, StartPass<Screen>(|b.overlays|), screen);
    PassOnlyEmits(b, screen);
    FilterAppend(pass.calls, [ApplyMutation(pass.indexMutator, pass.attributeMutator), BufferRender], IsApply);
  }

  /** The index mutator is pre-sized to six indexes per owned handle, however
      many of them turn out visible. */
  lemma RenderCapacityHint<Screen>(b: Bucket<Screen>, screen: Screen)
    requires |b.overlays| > 0
    ensures var calls := Render(b, screen);
      && |calls| >= 2 && calls[|calls| - 2].ApplyMutation?
      && calls[|calls| - 2].indexMutator.capacityHint == 6 * |b.overlays|
  {
  }

  /** The applied mutation holds the visible handles' indexes and the visible
      dynamic handles' attribute entries, in list order, each computed from
      that handle's state for the rendered screen. The writers' ids and the
      common screen are corollaries of the entries, spelled out for callers. */
  lemma RenderAppliedMutation<Screen>(b: Bucket<Screen>, screen: Screen)
    requires |b.overlays| > 0
    ensures var calls := Render(b, screen);
      && |calls| >= 2 && calls[|calls| - 2].ApplyMutation?
      && var m := calls[|calls| - 2];
      && m.indexMutator.indexes == Ids(Filter(b.overlays, IsVisible))
      && Map(m.attributeMutator.mutations, MutationHandle) == Ids(Filter(b.overlays, EmitsAttributes))
      && m.attributeMutator.mutations == Map(Filter(b.overlays, EmitsAttributes), AttributeEntry(screen))
      && forall i :: 0 <= i < |m.attributeMutator.mutations| ==> m.attributeMutator.mutations[i].screen == screen
  {
    AccumulateAllWrites(b.overlays, StartPass<Screen>(|b.overlays|), screen);
    AccumulateAllEntries(b.overlays, StartPass<Screen>(|b.overlays|), screen);
  }

  /** Exactly the visible handles are asked for indexes, in list order;
      invisible handles are asked nothing. */
  lemma RenderIndexEmissions<Screen>(b: Bucket<Screen>, screen: Screen)
    ensures IndexEmissions(Render(b, screen)) == Ids(Filter(b.overlays, IsVisible))
  {
    if |b.overlays| > 0 {
      var pass := AccumulateAll(b.overlays, StartPass<Screen>(|b.overlays|), screen);
      AccumulateAllAsks(b.overlays, StartPass<Screen>(|b.overlays|), screen);
      EmissionsAppend(pass.calls, [ApplyMutation(pass.indexMutator, pass.attributeMutator), BufferRender]);
    }
  }

  /** Exactly the visible dynamic handles are asked for attributes, in list
      order, so the attribute requests are a subsequence of the index
      requests. */
  lemma RenderAttributeEmissions<Screen>(b: Bucket<Screen>, screen: Screen)
    ensures AttributeEmissions(Render(b, screen)) == Ids(Filter(b.overlays, EmitsAttributes))
    ensures IsSubsequence(AttributeEmissions(Render(b, screen)), IndexEmissions(Render(b, screen)))
  {
    if |b.overlays| > 0 {
      var pass := AccumulateAll(b.overlays, StartPass<Screen>(|b.overlays|), screen);
      AccumulateAllAsks(b.overlays, StartPass<Screen>(|b.overlays|), screen);
      EmissionsAppend(pass.calls, [ApplyMutation(pass.indexMutator, pass.attributeMutator), BufferRender]);
    }
    RenderIndexEmissions(b, screen);
    AttributeEmittersAreVisibleSubsequence(b.overlays);
  }

  /** A handle is asked for its attribute mutation right after being asked
      for its indexes. */
  lemma RenderPairsRequests<Screen>(b: Bucket<Screen>, screen: Screen)
    ensures AttributesFollowIndexes(Render(b, screen))
  {
    if |b.overlays| > 0 {
      var pass := AccumulateAll(b.overlays, StartPass<Screen>(|b.overlays|), screen);
      AccumulateAllPairsRequests(b.overlays, StartPass<Screen>(|b.overlays|), screen);
      var calls := Render(b, screen);
      forall i | 0 <= i < |calls| && calls[i].GetAttributeMutation?
        ensures 0 < i && calls[i - 1] == GetElementIndexes(calls[i].handle)
      {
        assert i < |pass.calls| && calls[i] == pass.calls[i] && calls[i - 1] == pass.calls[i - 1];
      }
    }
  }

  /** The bucket adds nothing and drops nothing: the handle count grows by one
      and an already owned handle is owned once more. */
  lemma AddOverlayHandleKeepsDuplicates<Screen>(b: Bucket<Screen>, h: OverlayHandle<Screen>)
    ensures multiset(AddOverlayHandle(b, h).overlays) == multiset(b.overlays) + multiset{h}
  {
    assert AddOverlayHandle(b, h).overlays == b.overlays + [h];
  }

  /** Appending keeps the handles distinct exactly when the new handle is not
      owned yet. */
  lemma AddOverlayHandleKeepsDistinct<Screen>(b: Bucket<Screen>, h: OverlayHandle<Screen>)
    requires DistinctIds(b.overlays)
    ensures DistinctIds(AddOverlayHandle(b, h).overlays) <==> h.id !in Ids(b.overlays)
  {
    var r := AddOverlayHandle(b, h).overlays;
    assert r == b.overlays + [h];
    assert Ids(r) == Ids(b.overlays) + [h.id] by {
      MapAppend(b.overlays, [h], HandleId);
    }
    if h.id in Ids(b.overlays) {
      var k :| 0 <= k < |Ids(b.overlays)| && Ids(b.overlays)[k] == h.id;
      assert Ids(r)[k] == Ids(r)[|b.overlays|];
    } else {
      forall x, y | 0 <= x < y < |Ids(r)|
        ensures Ids(r)[x] != Ids(r)[y]
      {
        assert Ids(r)[x] == Ids(b.overlays)[x];
        if y < |b.overlays| {
          assert Ids(r)[y] == Ids(b.overlays)[y];
        }
      }
    }
  }

  /** The destructor releases the buffer once and, when no handle was added
      twice, every owned handle exactly once. */
  lemma DestroyReleasesEachHandleOnce<Screen>(b: Bucket<Screen>, i: nat)
    requires DistinctIds(b.overlays) && i < |b.overlays|
    ensures multiset(Destroy(b))[BufferDestroy(b.buffer.id)] == 1
    ensures multiset(Destroy(b))[OverlayDelete(b.overlays[i].id)] == 1
  {
    var r := Destroy(b);
    assert Distinct(r) by {
      forall x, y | 0 <= x < y < |r|
        ensures r[x] != r[y]
      {
        if x > 0 {
          assert Ids(b.overlays)[x - 1] != Ids(b.overlays)[y - 1];
        }
      }
    }
    DistinctOccursOnce(r, 0);
    DistinctOccursOnce(r, i + 1);
  }

  /** No operation replaces the owned buffer. */
  lemma BufferNeverReplaced<Screen>(buffer: VertexArrayBuffer, b: Bucket<Screen>, h: OverlayHandle<Screen>, modelView: Screen, tree: OverlayTree)
    ensures GetBuffer(NewBucket<Screen>(buffer)) == buffer
    ensures GetBuffer(AddOverlayHandle(b, h)) == GetBuffer(b)
    ensures GetBuffer(Update(b, modelView).bucket) == GetBuffer(b)
    ensures GetBuffer(CollectOverlayHandles(b, tree).0) == GetBuffer(b)
  {
  }

  /** Two passes agree on everything the handles were asked: the calls, the
      index mutator and which handle wrote each attribute entry. */
  ghost predicate SameRequests<Screen>(p: Pass<Screen>, q: Pass<Screen>) {
    && p.calls == q.calls
    && p.indexMutator == q.indexMutator
    && Map(p.attributeMutator.mutations, MutationHandle) == Map(q.attributeMutator.mutations, MutationHandle)
  }

  /** Which handles the render pass asks depends only on each handle's
      identity and two flags: handles that agree on those, whatever they were
      placed for, keep agreeing passes agreeing. */
  lemma {:induction false} AccumulateAllIgnoresPlacement<Screen>(hs: seq<OverlayHandle<Screen>>, gs: seq<OverlayHandle<Screen>>, p: Pass<Screen>, q: Pass<Screen>, screen: Screen)
    requires |hs| == |gs|
    requires forall i :: 0 <= i < |hs| ==> hs[i].id == gs[i].id && hs[i].visible == gs[i].visible && hs[i].dynamic == gs[i].dynamic
    requires SameRequests(p, q)
    ensures SameRequests(AccumulateAll(hs, p, screen), AccumulateAll(gs, q, screen))
    decreases |hs|
  {
    if |hs| > 0 {
      var p1 := AccumulateMutations(hs[0], p, screen);
      var q1 := AccumulateMutations(gs[0], q, screen);
      AccumulateMutationsWrites(hs[0], p, screen);
      AccumulateMutationsWrites(gs[0], q, screen);
      assert SameRequests(p1, q1);
      AccumulateAllIgnoresPlacement(hs[1..], gs[1..], p1, q1, screen);
    }
  }

  /** An update on its own changes nothing about whom the next render asks:
      the same calls in the same order, and an applied mutation with the same
      index side and the same writer for every attribute entry. Only the
      entries' content, computed from the new placements, may differ. */
  lemma UpdateKeepsRender<Screen>(b: Bucket<Screen>, modelView: Screen, screen: Screen)
    ensures var before, after := Render(b, screen), Render(Update(b, modelView).bucket, screen);
      && |after| == |before|
      && IndexEmissions(after) == IndexEmissions(before)
      && AttributeEmissions(after) == AttributeEmissions(before)
      && (forall i :: 0 <= i < |before| && !IsApply(before[i]) ==> after[i] == before[i])
      && (forall i :: 0 <= i < |before| && IsApply(before[i]) ==>
            && IsApply(after[i])
            && after[i].indexMutator == before[i].indexMutator
            && Map(after[i].attributeMutator.mutations, MutationHandle) == Map(before[i].attributeMutator.mutations, MutationHandle))
  {
    var u := Update(b, modelView).bucket;
    if |b.overlays| > 0 {
      var start := StartPass<Screen>(|b.overlays|);
      var pu := AccumulateAll(u.overlays, start, screen);
      var pb := AccumulateAll(b.overlays, start, screen);
      assert SameRequests(pu, pb) by {
        AccumulateAllIgnoresPlacement(u.overlays, b.overlays, start, start, screen);
      }
      var tail := [ApplyMutation(pu.indexMutator, pu.attributeMutator), BufferRender];
      var tailB := [ApplyMutation(pb.indexMutator, pb.attributeMutator), BufferRender];
      assert Render(u, screen) == pb.calls + tail;
      assert Render(b, screen) == pb.calls + tailB;
      PassTraceKeepsRequests(pb.calls, tail, tailB);
    }
  }

  /** Two traces that share their pass and end in an apply and the draw make
      the same requests and differ at most inside the apply. */
  lemma PassTraceKeepsRequests<Screen>(calls: seq<Call<Screen>>, tail: seq<Call<Screen>>, tailB: seq<Call<Screen>>)
    requires |tail| == 2 && |tailB| == 2 && IsApply(tail[0]) && IsApply(tailB[0]) && IsDraw(tail[1]) && IsDraw(tailB[1])
    requires forall i :: 0 <= i < |calls| ==> !IsApply(calls[i])
    requires tail[0].indexMutator == tailB[0].indexMutator
    requires Map(tail[0].attributeMutator.mutations, MutationHandle) == Map(tailB[0].attributeMutator.mutations, MutationHandle)
    ensures var before, after := calls + tailB, calls + tail;
      && |after| == |before|
      && IndexEmissions(after) == IndexEmissions(before)
      && AttributeEmissions(after) == AttributeEmissions(before)
      && (forall i :: 0 <= i < |before| && !IsApply(before[i]) ==> after[i] == before[i])
      && (forall i :: 0 <= i < |before| && IsApply(before[i]) ==>
            && IsApply(after[i])
            && after[i].indexMutator == before[i].indexMutator
            && Map(after[i].attributeMutator.mutations, MutationHandle) == Map(before[i].attributeMutator.mutations, MutationHandle))
  {
    EmissionsAppend(calls, tail);
    EmissionsAppend(calls, tailB);
    assert tail[1..][1..] == [] && tailB[1..][1..] == [];
  }

  /** After an update, every attribute entry the next render applies was
      computed from geometry placed for that update's transform. */
  lemma UpdatePlacesRenderedAttributes<Screen>(b: Bucket<Screen>, modelView: Screen, screen: Screen)
    requires |b.overlays| > 0
    ensures var calls := Render(Update(b, modelView).bucket, screen);
      && |calls| >= 2 && calls[|calls| - 2].ApplyMutation?
      && var m := calls[|calls| - 2].attributeMutator.mutations;
      forall k :: 0 <= k < |m| ==> m[k].placement == PlacedFor(modelView)
  {
    var u := Update(b, modelView).bucket;
    RenderAppliedMutation(u, screen);
    var kept := Filter(u.overlays, EmitsAttributes);
    forall k | 0 <= k < |kept|
      ensures kept[k].placement == PlacedFor(modelView)
    {
      FilterMembers(u.overlays, EmitsAttributes, k);
    }
  }

  /** In the model, what a render applies records the last update: with a
      visible dynamic handle, the applied entry carries the transform the
      handle was placed for, so different transforms give different recorded
      renders. Equal pixels from two transforms are not identified. */
  lemma RenderFollowsUpdate<Screen>(b: Bucket<Screen>, m1: Screen, m2: Screen, screen: Screen, i: nat)
    requires i < |b.overlays| && EmitsAttributes(b.overlays[i]) && m1 != m2
    ensures Render(Update(b, m1).bucket, screen) != Render(Update(b, m2).bucket, screen)
  {
    var u1 := Update(b, m1).bucket;
    var u2 := Update(b, m2).bucket;
    FilterKeeps(u1.overlays, EmitsAttributes, i);
    FilterKeeps(u2.overlays, EmitsAttributes, i);
    RenderAppliedMutation(u1, screen);
    RenderAppliedMutation(u2, screen);
    UpdatePlacesRenderedAttributes(b, m1, screen);
    UpdatePlacesRenderedAttributes(b, m2, screen);
    var r1 := Render(u1, screen);
    var r2 := Render(u2, screen);
    assert r1[|r1| - 2].attributeMutator.mutations[0].placement != r2[|r2| - 2].attributeMutator.mutations[0].placement;
  }

  /** Updating twice with the same transform leaves the bucket, the calls of
      the second update and the next render exactly as updating once does. */
  lemma UpdateIsIdempotent<Screen>(b: Bucket<Screen>, modelView: Screen, screen: Screen)
    ensures Update(Update(b, modelView).bucket, modelView).bucket == Update(b, modelView).bucket
    ensures Update(Update(b, modelView).bucket, modelView).calls == Update(b, modelView).calls
    ensures Render(Update(Update(b, modelView).bucket, modelView).bucket, screen) == Render(Update(b, modelView).bucket, screen)
  {
    var once := Update(b, modelView).bucket;
    var twice := Update(once, modelView).bucket;
    assert twice.overlays == once.overlays;
  }

  /** With at least one handle, updates with different transforms leave
      different buckets in the model: each handle records the transform it
      was placed for, not the geometry that transform yields. */
  lemma UpdateDistinguishesTransforms<Screen>(b: Bucket<Screen>, m1: Screen, m2: Screen)
    requires |b.overlays| > 0 && m1 != m2
    ensures Update(b, m1).bucket != Update(b, m2).bucket
  {
    assert Update(b, m1).bucket.overlays[0].placement != Update(b, m2).bucket.overlays[0].placement;
  }

  /** Among distinct handles, an invisible one is asked for nothing during the
      render pass, neither indexes nor attributes. */
  lemma RenderSkipsInvisible<Screen>(b: Bucket<Screen>, screen: Screen, i: nat)
    requires DistinctIds(b.overlays) && i < |b.overlays| && !IsVisible(b.overlays[i])
    ensures b.overlays[i].id !in IndexEmissions(Render(b, screen))
    ensures b.overlays[i].id !in AttributeEmissions(Render(b, screen))
  {
    RenderIndexEmissions(b, screen);
    RenderAttributeEmissions(b, screen);
    RejectedIdAbsent(b.overlays, IsVisible, i);
    RejectedIdAbsent(b.overlays, EmitsAttributes, i);
  }

  /** Three handles, all visible, the middle one dynamic: three index requests
      in insertion order, one attribute request, an eighteen-index hint. */
  lemma ThreeVisibleOneDynamic<Screen>(buffer: VertexArrayBuffer, screen: Screen)
    ensures var b := AddOverlayHandle(AddOverlayHandle(AddOverlayHandle(NewBucket<Screen>(buffer),
                       OverlayHandle(1, true, false, Unplaced)), OverlayHandle(2, true, true, Unplaced)), OverlayHandle(3, true, false, Unplaced));
      var calls := Render(b, screen);
      && IndexEmissions(calls) == [1, 2, 3]
      && AttributeEmissions(calls) == [2]
      && calls[|calls| - 2].indexMutator.capacityHint == 18
      && IsDraw(calls[|calls| - 1])
  {
    var hs := [OverlayHandle(1, true, false, Unplaced), OverlayHandle(2, true, true, Unplaced), OverlayHandle(3, true, false, Unplaced)];
    var b := AddOverlayHandle(AddOverlayHandle(AddOverlayHandle(NewBucket<Screen>(buffer),
               hs[0]), hs[1]), hs[2]);
    assert b.overlays == hs;
    assert Filter(hs, IsVisible) == hs by {
      assert Filter(hs[2..], IsVisible) == [hs[2]];
      assert Filter(hs[1..], IsVisible) == [hs[1], hs[2]];
    }
    assert Filter(hs, EmitsAttributes) == [hs[1]] by {
      assert Filter(hs[2..], EmitsAttributes) == [];
      assert Filter(hs[1..], EmitsAttributes) == [hs[1]];
    }
    RenderIndexEmissions(b, screen);
    RenderAttributeEmissions(b, screen);
    RenderCapacityHint(b, screen);
  }

  /** Two handles, neither visible: nothing is requested from them, yet the
      empty mutation is applied and the draw call still happens. */
  lemma NoneVisibleStillDraws<Screen>(buffer: VertexArrayBuffer, screen: Screen)
    ensures var b := AddOverlayHandle(AddOverlayHandle(NewBucket<Screen>(buffer),
                       OverlayHandle(1, false, true, Unplaced)), OverlayHandle(2, false, false, Unplaced));
      var calls := Render(b, screen);
      && IndexEmissions(calls) == []
      && AttributeEmissions(calls) == []
      && calls == [ApplyMutation(IndexMutator(12, []), AttributeMutator([])), BufferRender]
  {
    var hs := [OverlayHandle(1, false, true, Unplaced), OverlayHandle(2, false, false, Unplaced)];
    var b := AddOverlayHandle(AddOverlayHandle(NewBucket<Screen>(buffer), hs[0]), hs[1]);
    assert b.overlays == hs;
    assert hs[1..][1..] == [];
  }
}
