/**
 The calls a render bucket makes on its overlay handles and its vertex array
 buffer during `Update` and `Render`, recorded in the order they are made.
 */
module Trace {
  import opened Mutators
  import opened Seqs

  datatype Call<Screen> =
    | OverlayUpdate(handle: nat, screen: Screen)          // OverlayHandle::Update(modelView)
    | GetElementIndexes(handle: nat)                      // OverlayHandle::GetElementIndexes
    | GetAttributeMutation(handle: nat, screen: Screen)   // OverlayHandle::GetAttributeMutation
    | ApplyMutation(indexMutator: IndexMutator, attributeMutator: AttributeMutator<Screen>)
    | BufferRender                                        // VertexArrayBuffer::Render, the draw call

  predicate IsDraw<Screen>(c: Call<Screen>) {
    c.BufferRender?
  }

  predicate IsApply<Screen>(c: Call<Screen>) {
    c.ApplyMutation?
  }

  /** A call a handle receives while the render pass accumulates mutations. */
  predicate IsEmission<Screen>(c: Call<Screen>) {
    c.GetElementIndexes? || c.GetAttributeMutation?
  }

  /** Every attribute request comes right after the same handle's index
      request. */
  ghost predicate AttributesFollowIndexes<Screen>(calls: seq<Call<Screen>>) {
    forall i :: 0 <= i < |calls| && calls[i].GetAttributeMutation? ==>
      0 < i && calls[i - 1] == GetElementIndexes(calls[i].handle)
  }

  /** The handles asked for their indexes, in call order. */
  function IndexEmissions<Screen>(calls: seq<Call<Screen>>): (r: seq<nat>)
    ensures |r| <= |calls|
  {
    if |calls| == 0 then []
    else (if calls[0].GetElementIndexes? then [calls[0].handle] else []) + IndexEmissions(calls[1..])
  }

  /** The handles asked for their attribute mutation, in call order. */
  function AttributeEmissions<Screen>(calls: seq<Call<Screen>>): (r: seq<nat>)
    ensures |r| <= |calls|
  {
    if |calls| == 0 then []
    else (if calls[0].GetAttributeMutation? then [calls[0].handle] else []) + AttributeEmissions(calls[1..])
  }

  lemma {:induction false} EmissionsAppend<Screen>(a: seq<Call<Screen>>, b: seq<Call<Screen>>)
    ensures IndexEmissions(a + b) == IndexEmissions(a) + IndexEmissions(b)
    ensures AttributeEmissions(a + b) == AttributeEmissions(a) + AttributeEmissions(b)
  {
    IndexEmissionsAppend(a, b);
    AttributeEmissionsAppend(a, b);
  }

  lemma {:induction false} IndexEmissionsAppend<Screen>(a: seq<Call<Screen>>, b: seq<Call<Screen>>)
    ensures IndexEmissions(a + b) == IndexEmissions(a) + IndexEmissions(b)
  {
    if |a| == 0 {
      assert a + b == b;
    } else {
      var head := if a[0].GetElementIndexes? then [a[0].handle] else [];
      assert (a + b)[0] == a[0] && (a + b)[1..] == a[1..] + b;
      IndexEmissionsAppend(a[1..], b);
      assert IndexEmissions(a + b) == head + (IndexEmissions(a[1..]) + IndexEmissions(b));
      AppendAssociative(head, IndexEmissions(a[1..]), IndexEmissions(b));
    }
  }

  lemma {:induction false} AttributeEmissionsAppend<Screen>(a: seq<Call<Screen>>, b: seq<Call<Screen>>)
    ensures AttributeEmissions(a + b) == AttributeEmissions(a) + AttributeEmissions(b)
  {
    if |a| == 0 {
      assert a + b == b;
    } else {
      var head := if a[0].GetAttributeMutation? then [a[0].handle] else [];
      assert (a + b)[0] == a[0] && (a + b)[1..] == a[1..] + b;
      AttributeEmissionsAppend(a[1..], b);
      assert AttributeEmissions(a + b) == head + (AttributeEmissions(a[1..]) + AttributeEmissions(b));
      AppendAssociative(head, AttributeEmissions(a[1..]), AttributeEmissions(b));
    }
  }
}
