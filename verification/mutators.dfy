/**
 The two per-frame accumulators a render pass fills and hands to the vertex
 array buffer. Each records, in emission order, which handle wrote into it;
 the raw index values and attribute bytes a handle writes are not modelled.
 */
module Mutators {
  import opened Overlays

  /** `IndexBufferMutator(capacityHint)`: the hint only pre-sizes storage, so
      more emissions than the hint are accepted. */
  datatype IndexMutator = IndexMutator(capacityHint: nat, indexes: seq<nat>)

  /** One `GetAttributeMutation(mutator, screen)` contribution: the handle that
      wrote it, the transform that handle's geometry was last computed for, and
      the screen it was computed for. The attribute bytes are a function of the
      handle's state, so the placement stands for all of that state that
      `Update` changes. */
  datatype AttributeMutation<Screen> = AttributeMutation(handle: nat, placement: Placement<Screen>, screen: Screen)

  datatype AttributeMutator<Screen> = AttributeMutator(mutations: seq<AttributeMutation<Screen>>)

  function MutationHandle<Screen>(m: AttributeMutation<Screen>): (handle: nat) {
    m.handle
  }

  /** A fresh index mutator: pre-sized, nothing written. */
  function NewIndexMutator(capacityHint: nat): (m: IndexMutator) {
    IndexMutator(capacityHint, [])
  }

  function NewAttributeMutator<Screen>(): (m: AttributeMutator<Screen>) {
    AttributeMutator([])
  }

  /** Records one handle's index contribution after the earlier ones. */
  function AppendIndexes(m: IndexMutator, handle: nat): (r: IndexMutator)
    ensures r.capacityHint == m.capacityHint
    ensures |r.indexes| == |m.indexes| + 1
    ensures r.indexes[..|m.indexes|] == m.indexes && r.indexes[|m.indexes|] == handle
  {
    m.(indexes := m.indexes + [handle])
  }

  /** Records one handle's attribute contribution after the earlier ones. */
  function AppendAttributes<Screen>(m: AttributeMutator<Screen>, handle: nat, placement: Placement<Screen>, screen: Screen): (r: AttributeMutator<Screen>)
    ensures |r.mutations| == |m.mutations| + 1
    ensures r.mutations[..|m.mutations|] == m.mutations
    ensures r.mutations[|m.mutations|] == AttributeMutation(handle, placement, screen)
  {
    AttributeMutator(m.mutations + [AttributeMutation(handle, placement, screen)])
  }
}
