/**
 * How the three revisions relate. The current revision's variable-length
 * `MapKey` subsumes the earliest revision's `MapKey` and `DoubleMapKey`
 * (one and two components hash to the same storage keys).
 *
 * For params an older revision accepts, its raw read of a stored value
 * returns the current reader's `apply_params` window of that value. The
 * revisions differ outside that:
 *   - the older and earliest revisions reject lengths above their own
 *     limits, while the current window accepts any length;
 *   - the earliest raw read answers an absent key with "Item not found".
 */
module Revisions {
  import opened Primitives
  import opened Hashing
  import opened Host
  import opened Output
  import StorageReaderLegacy
  import StorageReader
  import ReadStorage

  /** A one-component key on a one-hasher map, and a two-component key on a two-hasher map, give the earliest revision's storage keys. */
  lemma StorageKeysAgree(hs: Hashers, pallet: Name, entry: Name, k1: Bytes, k2: Bytes, h1: StorageHasher, h2: StorageHasher)
    ensures StorageReader.StorageKey(hs, StorageReader.NoKey, pallet, entry, StorageReader.Plain)
         == ReadStorage.StorageKey(hs, ReadStorage.NoKey, pallet, entry, ReadStorage.Plain)
    ensures StorageReader.StorageKey(hs, StorageReader.MapKey([k1]), pallet, entry, StorageReader.Map([h1]))
         == ReadStorage.StorageKey(hs, ReadStorage.MapKey(k1), pallet, entry, ReadStorage.Map(h1))
    ensures StorageReader.StorageKey(hs, StorageReader.MapKey([k1, k2]), pallet, entry, StorageReader.Map([h1, h2]))
         == ReadStorage.StorageKey(hs, ReadStorage.DoubleMapKey(k1, k2), pallet, entry, ReadStorage.DoubleMap(h1, h2))
  {
    var hash1 := HashBytesWith(hs, k1, h1);
    var hash2 := HashBytesWith(hs, k2, h2);
    assert [k1][1..] == [] && [h1][1..] == [];
    assert [k2][1..] == [] && [h2][1..] == [];
    assert [k1, k2][1..] == [k2] && [h1, h2][1..] == [h2];
    assert StorageReader.HashComponents(hs, [k1], [h1]) == hash1 + [] == hash1;
    assert StorageReader.HashComponents(hs, [k2], [h2]) == hash2 + [] == hash2;
    assert StorageReader.HashComponents(hs, [k1, k2], [h1, h2]) == hash1 + hash2;
    assert StorageReader.ToHashedKey(hs, StorageReader.MapKey([k1]), StorageReader.Map([h1]))
        == ReadStorage.ToHashedKey(hs, ReadStorage.MapKey(k1), ReadStorage.Map(h1));
    assert StorageReader.ToHashedKey(hs, StorageReader.MapKey([k1, k2]), StorageReader.Map([h1, h2]))
        == ReadStorage.ToHashedKey(hs, ReadStorage.DoubleMapKey(k1, k2), ReadStorage.DoubleMap(h1, h2));
  }

  /**
   * On a value a `usize` can measure, the older reader's bounded-buffer read
   * returns what the current reader gets by windowing the whole value.
   */
  lemma OlderReadIsCurrentWindow(store: Storage, key: Bytes, ip: InputParams)
    requires key in store ==> |store[key]| <= USIZE_MAX
    requires StorageReaderLegacy.TryFromInput(ip).Ok?
    ensures StorageReaderLegacy.ReadSpec(store, key, StorageReaderLegacy.TryFromInput(ip).value)
         == StorageReader.ApplyParams(FromOption(Get(store, key)), ip)
  {
    var p := StorageReaderLegacy.TryFromInput(ip).value;
    StorageReaderLegacy.ReadIsWindowOfValue(store, key, p);
    if key in store {
      StorageReaderLegacy.ToRangeWindow(p, |store[key]|);
    }
  }

  /**
   * For a stored value a `usize` can measure, the earliest reader returns
   * the bytes the current reader's window selects.
   */
  lemma EarliestReadIsCurrentWindow(store: Storage, key: Bytes, ip: InputParams)
    requires key in store && |store[key]| <= USIZE_MAX
    requires ReadStorage.TryFromInput(ip).Ok?
    ensures ReadStorage.ReadSpec(store, key, ReadStorage.TryFromInput(ip).value)
         == Ok(StorageReader.ApplyParams(Item(store[key]), ip).bytes)
  {
    var value := store[key];
    match ip
    case NoParams =>
    case Offset(o) =>
      assert value[Min(o, |value|)..|value|] == value[Min(|value|, o)..];
    case Len(l) =>
      assert Tail(value, 0) == value;
    case OffsetAndLen(o, l) =>
      StorageReader.ToRangeOffsetAndLen(o, l, |value|);
      var data := Tail(value, o);
      assert data[..Min(l, |data|)] == value[Min(o, |value|)..Min(o + l, |value|)];
  }
}
