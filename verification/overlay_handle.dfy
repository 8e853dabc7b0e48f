/**
 The overlay handle as the render bucket sees it: an identity, the two
 answers the bucket asks of it each frame, and the camera transform its
 screen geometry was last computed for. How visibility is decided (by the
 overlay tree's collision pass) and the geometry itself are not modelled;
 visibility is whatever the last resolution pass left in the flag.
 */
module Overlays {
  import Seqs

  /** The transform a handle's screen geometry was last computed for. */
  datatype Placement<Screen> = Unplaced | PlacedFor(screen: Screen)

  /** `id` stands for the handle object's identity: one id is one object, so
      two records with the same id in one bucket are the same handle added
      twice (see `DistinctIds`). `visible` is the memoized answer of
      `IsVisible()`; `dynamic` is `HasDynamicAttributes()`, fixed when the
      handle is created; `placement` is what `Update` last recomputed the
      geometry for. */
  datatype OverlayHandle<Screen> = OverlayHandle(id: nat, visible: bool, dynamic: bool, placement: Placement<Screen>)

  /** `OverlayHandle::Update(modelView)`: recomputes the handle's geometry for
      the transform; identity and both flags are untouched. */
  function UpdateHandle<Screen>(h: OverlayHandle<Screen>, modelView: Screen): (r: OverlayHandle<Screen>)
    ensures r.id == h.id && r.visible == h.visible && r.dynamic == h.dynamic
    ensures r.placement == PlacedFor(modelView)
  {
    h.(placement := PlacedFor(modelView))
  }

  predicate IsVisible<Screen>(h: OverlayHandle<Screen>) {
    h.visible
  }

  predicate HasDynamicAttributes<Screen>(h: OverlayHandle<Screen>) {
    h.dynamic
  }

  /** A handle whose attribute mutation is requested during a render pass. */
  predicate EmitsAttributes<Screen>(h: OverlayHandle<Screen>) {
    IsVisible(h) && HasDynamicAttributes(h)
  }

  function HandleId<Screen>(h: OverlayHandle<Screen>): (id: nat) {
    h.id
  }

  /** The identities of the handles, in order. */
  function Ids<Screen>(hs: seq<OverlayHandle<Screen>>): (ids: seq<nat>) {
    Seqs.Map(hs, HandleId)
  }

  /** No handle object occurs twice in `hs`. */
  ghost predicate DistinctIds<Screen>(hs: seq<OverlayHandle<Screen>>) {
    Seqs.Distinct(Ids(hs))
  }

  /** The handles asked for attributes are exactly the dynamic handles among the
      visible ones, so they form a subsequence of the visible handles. */
  lemma AttributeEmittersAreVisibleSubsequence<Screen>(hs: seq<OverlayHandle<Screen>>)
    ensures Seqs.Filter(Seqs.Filter(hs, IsVisible), HasDynamicAttributes) == Seqs.Filter(hs, EmitsAttributes)
    ensures Seqs.IsSubsequence(Ids(Seqs.Filter(hs, EmitsAttributes)), Ids(Seqs.Filter(hs, IsVisible)))
  {
    Seqs.FilterFilter(hs, IsVisible, HasDynamicAttributes, EmitsAttributes);
    Seqs.FilterIsSubsequence(Seqs.Filter(hs, IsVisible), HasDynamicAttributes);
    Seqs.MapPreservesSubsequence(Seqs.Filter(hs, EmitsAttributes), Seqs.Filter(hs, IsVisible), HandleId);
  }

  /** Among distinct handles, one the filter rejects has no id in the
      filtered ids. */
  lemma RejectedIdAbsent<Screen>(hs: seq<OverlayHandle<Screen>>, p: OverlayHandle<Screen> -> bool, i: nat)
    requires DistinctIds(hs) && i < |hs| && !p(hs[i])
    ensures hs[i].id !in Ids(Seqs.Filter(hs, p))
  {
    var kept := Seqs.Filter(hs, p);
    forall k | 0 <= k < |Ids(kept)|
      ensures Ids(kept)[k] != hs[i].id
    {
      Seqs.FilterMembers(hs, p, k);
      var j :| 0 <= j < |hs| && hs[j] == kept[k];
      assert p(hs[j]) && j != i;
      assert Ids(hs)[j] == Ids(kept)[k] && Ids(hs)[i] == hs[i].id;
    }
  }
}
