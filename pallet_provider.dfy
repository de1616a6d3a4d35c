/**
 * `impl_pallet_storage_metadata_provider!`, which both crates export: it
 * generates `pallet_storage_metadata` as a `match` on the pallet name with
 * one arm per listed pallet and `None` for any other name. The arms are
 * modelled as a sequence of (name, metadata) pairs, matched in order; the
 * metadata type differs between the crates, hence the type parameter.
 */
module PalletProvider {
  import opened Primitives

  type Arms<M> = seq<(Name, M)>

  /** Index of the first arm naming `pallet`, or `|arms|` when none does. */
  function FirstArmIndex<M>(arms: Arms<M>, pallet: Name): (i: nat)
    ensures i <= |arms|
    ensures forall j | 0 <= j < i :: arms[j].0 != pallet
    ensures i < |arms| ==> arms[i].0 == pallet
    decreases |arms|
  {
    if arms == [] || arms[0].0 == pallet then 0 else 1 + FirstArmIndex(arms[1..], pallet)
  }

  /** `pallet_storage_metadata`: the metadata of the first matching arm, `None` for an unlisted pallet. */
  function PalletStorageMetadataOf<M>(arms: Arms<M>, pallet: Name): (r: Option<M>)
    ensures r.None? <==> forall i | 0 <= i < |arms| :: arms[i].0 != pallet
    ensures r.Some? ==> r.value == arms[FirstArmIndex(arms, pallet)].1
  {
    var i := FirstArmIndex(arms, pallet);
    if i < |arms| then Some(arms[i].1) else None
  }
}
