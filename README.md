# Storage-reader precompiles of docknetwork/frontier, in Dafny

This project models the EVM precompiles that let contracts read Substrate pallet storage. It covers three revisions of them:

- **`StorageReader`** (`storage_reader.dfy`): the current `storage-reader` crate.
  - `common/`: the `Params` window, `RawStorageValue` helpers and the `ensure_enough_gas!` guard.
  - `meta_storage_reader/`: the key codec, key hashing and hashing weights, the metadata lookup, and `MetaStorageReader::execute` with its two gas checkpoints and its `record_cost` call.
- **`StorageReaderLegacy`** (`storage_reader_legacy.dfy`): the older revision of the same crate.
  - `raw_storage_reader/`: `MAX_BYTES_LEN`, `Params::new`, `to_range`, the bounded-buffer `read`, gas and `execute`.
  - The windowing `or_default` of `output.rs`.
- **`ReadStorage`** (`read_storage.dfy`): the earliest `read_storage` crate. It has `lower_upper` with hard overflow errors, a raw reader that reports absent keys as "Item not found", the three key shapes `NoKey`/`MapKey`/`DoubleMapKey`, and metadata behind `DecodeDifferent`. Its `execute` falls back to a sliced default and costs a constant 3000 gas.

Shared modules:

- **`Primitives`**: machine integers, `Option`/`Result`, saturating and checked arithmetic. `usize` is 32 bits, as on the wasm32 runtime.
- **`Hashing`**: `StorageHasher` dispatch and the final-key layout `Twox128(pallet) ++ Twox128(entry) ++ hashed key`. The layout is built by filling a zeroed buffer.
- **`Host`**: the store as a map. `Get` stands for `sp_io::storage::get`. `Read` stands for `sp_io::storage::read`, which copies part of a value into a caller's buffer and returns the length of the value's tail.
- **`Output`**: the presence-byte codec of `RawStorageValue`. The older `output.rs` and the current `common/output.rs` define it identically.
- **`PalletProvider`**: the `impl_pallet_storage_metadata_provider!` pallet match.
- **`Revisions`**: lemmas relating the revisions.
  - The current `MapKey` of one or two components yields the earliest revision's `MapKey`/`DoubleMapKey` storage keys.
  - Take a stored value and params that the older revision accepts. The older revision's read returns the current reader's `apply_params` window of that value. The older lemma also covers an absent key, which both sides answer with `None`.
  - For a stored value and params that the earliest revision accepts, the earliest read also returns that window.
  - The revisions differ outside these conditions:
    - The length limit is `0x3e800` in the older revision and `0x100000` in the earliest. The current window has no limit.
    - The earliest raw read answers an absent key with "Item not found" instead of `None`.

Each execute operation takes its input already decoded, with `None` meaning a decoding failure. The store, the digest functions, the hasher weight table and the gas configuration are all parameters.

## Model

| member | source | states |
|---|---|---|
| `Hashing.HashBytesWith` | frame/evm/precompile/read_storage/src/meta_storage_reader/key.rs:125-135 | The output is the digest width plus, for the concat hashers, the input. For `Blake2_128Concat`, `Twox64Concat` and `Identity` that input is the suffix after the digest. `Twox128` gives the 16-byte Twox128 digest. |
| `Hashing.FillFinalKey` | frame/evm/precompile/storage-reader/src/meta_storage_reader/key.rs:87-92 | A zeroed buffer of `32 + len(hashed)` bytes, filled by three slice copies, equals `Twox128(pallet) ++ Twox128(entry) ++ hashed`, part by part. |
| `Hashing.CopyInto` | frame/evm/precompile/storage-reader/src/meta_storage_reader/key.rs:88-90 | `copy_from_slice` puts the source at the offset and leaves every other byte of the buffer as it was. |
| `Hashing.FinalKeyParts` | frame/evm/precompile/storage-reader/src/meta_storage_reader/key.rs:87-90 | The final key has length `32 + len(hashed)`. It splits at 16 and 32 into the pallet prefix, the entry prefix and the hashed key. |
| `Host.Get` | frame/evm/precompile/storage-reader/src/raw_storage_reader/mod.rs:100 | Present exactly when the key is stored, and then it is the stored value. |
| `Host.Read` | frame/evm/precompile/storage-reader/src/raw_storage_reader/mod.rs:86-90 | For an absent key: `None`, and the buffer is untouched. For a present key: copies `min(tail, buffer)` bytes of the value's tail from the offset, keeps the rest of the buffer, and returns the tail's length. |
| `Output.Accessors` | frame/evm/precompile/storage-reader/src/common/output.rs:15-28 | `into_item` and `From<Option<Bytes>>` are inverse. `len` is 0 for `None` and the byte count for `Item`. |
| `Output.EncodeToBytes` | frame/evm/precompile/storage-reader/src/common/output.rs:31-39 | Writing into a zeroed `len() + 1` buffer gives the tag byte (1 for `Item`, 0 for `None`) followed by the value bytes. |
| `Output.DecodeFromBytes` | frame/evm/precompile/storage-reader/src/common/output.rs:42-47 | `Item(rest)` exactly when the first byte is 1. Empty input or any other first byte gives `None`. |
| `Output.DecodeEncoding` | frame/evm/precompile/storage-reader/src/common/output.rs:31-47 | Decoding the encoding gives back the value, for both variants. |
| `Output.EncodingOfDecoded` | frame/evm/precompile/storage-reader/src/common/output.rs:42-47 | Re-encoding a decoded input reproduces it exactly when it is `[0]` or starts with 1. Any other input re-encodes as `[0]`. |
| `PalletProvider.FirstArmIndex` | frame/evm/precompile/storage-reader/src/meta_storage_reader/pallet_storage_metadata_provider.rs:29-32 | The first arm naming the pallet: no earlier arm names it. |
| `PalletProvider.PalletStorageMetadataOf` | frame/evm/precompile/storage-reader/src/meta_storage_reader/pallet_storage_metadata_provider.rs:28-33 | `None` exactly for an unlisted pallet name. Otherwise the metadata of the first matching arm. |
| `StorageReaderLegacy.NewParams` | frame/evm/precompile/storage-reader/src/raw_storage_reader/params.rs:23-36 | Fails with `LengthExceedsLimit` iff `len > 0x3e800`, so the limit itself passes. A zero offset becomes no offset. The length is kept. |
| `StorageReaderLegacy.TryFromInput` | frame/evm/precompile/storage-reader/src/raw_storage_reader/params.rs:79-90 | Each selector goes through `new` with its offset and length. An offset-only request never fails. It fails iff a length exceeds the limit. |
| `StorageReaderLegacy.ToRange` | frame/evm/precompile/storage-reader/src/raw_storage_reader/params.rs:38-60 | Never fails, and `lower <= upper <= max`. `upper` is `max` without a length. With one it is `min(offset + len, max)`, falling back to `max` when the sum overflows a `usize`. `lower = min(offset, upper)`. |
| `StorageReaderLegacy.ToRangeWindow` | frame/evm/precompile/storage-reader/src/raw_storage_reader/params.rs:40-59 | On a value a `usize` can measure, the window is `min(offset, max)..min(offset + len, max)`. |
| `StorageReaderLegacy.OrDefault` | frame/evm/precompile/storage-reader/src/output.rs:45-63 | An `Item` is returned unchanged whatever the params. `None` without a getter stays `None`. `None` with a getter becomes the default windowed by `to_range` of its length. |
| `StorageReaderLegacy.ReadIsWindowOfValue` | frame/evm/precompile/storage-reader/src/raw_storage_reader/mod.rs:84-106 | Reading through a bounded buffer gives the `to_range` window of the stored value, and at most `len` bytes. An absent key reads as `None`. |
| `StorageReaderLegacy.Read` | frame/evm/precompile/storage-reader/src/raw_storage_reader/mod.rs:75-109 | The buffer-and-truncate read returns the specified window. It returns `None` exactly for an absent key, and never more than `len` bytes. |
| `StorageReaderLegacy.OutputGasCost` | frame/evm/precompile/storage-reader/src/raw_storage_reader/mod.rs:115-119 | `weight_to_gas` of `ByteReadWeight * len`, capped at `u64::MAX`. |
| `StorageReaderLegacy.OutputGasMonotone` | frame/evm/precompile/storage-reader/src/raw_storage_reader/mod.rs:115-119 | With a monotone `weight_to_gas`, returning more bytes never costs less gas. |
| `StorageReaderLegacy.Execute` | frame/evm/precompile/storage-reader/src/raw_storage_reader/mod.rs:33-72 | The steps, in order: <ul><li>Malformed input gives "Failed to decode".</li><li>A target below the base cost gives `OutOfGas` before params or read.</li><li>Without a target, success iff the params are valid.</li></ul>On success the output is the encoding of the read value. The cost is base plus output gas. With a target and valid params, success iff that total fits the target, and any failure is `OutOfGas`. Invalid params that pass the base check give the params error's message ("Length exceeds limit"). |
| `StorageReaderLegacy.ExecutePresence` | frame/evm/precompile/storage-reader/src/raw_storage_reader/mod.rs:54-70 | An absent key is answered with `[0]`, a present one with a leading 1. |
| `StorageReaderLegacy.ExecuteBoundedByLen` | frame/evm/precompile/storage-reader/src/raw_storage_reader/mod.rs:84-98 | With a length, the answer is at most `len + 1` bytes. |
| `StorageReader.ToRange` | frame/evm/precompile/storage-reader/src/common/params.rs:26-45 | `None` exactly for `None` and `Offset(0)`, and otherwise `lower <= upper <= max`. The cases:<ul><li>`Len(l)` gives `0..min(l, max)`.</li><li>`Offset(o > 0)` gives `min(o, max)..max`.</li><li>`OffsetAndLen` gives `min(o, u)..u`, where `u = min(o + l, max)`, or `max` on overflow.</li></ul> |
| `StorageReader.ToRangeOffsetAndLen` | frame/evm/precompile/storage-reader/src/common/params.rs:31-44 | On a `usize`-sized value the window is `min(o, max)..min(o + l, max)`. A zero length gives an empty window, not `None`. |
| `StorageReader.OrDefault` | frame/evm/precompile/storage-reader/src/common/output.rs:50-55 | An `Item` is never overridden. `None` becomes the default when there is one. The result is `None` only when both are absent. |
| `StorageReader.ApplyParams` | frame/evm/precompile/storage-reader/src/common/output.rs:58-71 | Presence is preserved. An `Item` is unchanged when `to_range` is `None`, and otherwise becomes `bytes[range]`, always in bounds. The length never grows. |
| `StorageReader.DefaultBeforeWindow` | frame/evm/precompile/storage-reader/src/meta_storage_reader/mod.rs:90-95 | A default is substituted first and then windowed against its own length. |
| `StorageReader.WindowExamples` | ts-tests/tests/test-storage-accessor.ts:176-305 | Offset 30 and length 5 on 32 bytes leave 2 bytes. Offset 2 with length 0 is present and empty, encoded `[1]`. |
| `StorageReader.EnsureEnoughGas` | frame/evm/precompile/storage-reader/src/common/mod.rs:6-12 | Rejects with `OutOfGas` iff there is a target and it is strictly below the requirement. Without a target it never rejects. |
| `StorageReader.HashComponentsAppend` | frame/evm/precompile/storage-reader/src/meta_storage_reader/key.rs:132-136 | Hashing components is concatenative: a split key hashes to the two halves' hashes in order. |
| `StorageReader.HashComponentsLength` | frame/evm/precompile/storage-reader/src/meta_storage_reader/key.rs:132-136 | The hashed key's length is the sum of the digest widths plus the lengths of the components hashed by concat hashers. |
| `StorageReader.ToHashedKey` | frame/evm/precompile/storage-reader/src/meta_storage_reader/key.rs:111-140 | `Some` iff the key fits: `NoKey` on `Plain`, or a `MapKey` with one component per hasher. `NoKey` gives empty bytes. A `MapKey` gives the in-order concatenation of `hash_bytes_with(k_i, h_i)`, of the computed length. |
| `StorageReader.ComponentWeights` | frame/evm/precompile/storage-reader/src/meta_storage_reader/key.rs:146-150 | One weight per component: `hasher_weight(h_i, len(k_i) as u32)`. |
| `StorageReader.SaturatingFoldIsCappedSum` | frame/evm/precompile/storage-reader/src/meta_storage_reader/key.rs:151 | A saturating-add fold equals the exact sum capped at `u64::MAX`. |
| `StorageReader.HashingWeight` | frame/evm/precompile/storage-reader/src/meta_storage_reader/key.rs:119-155 | `Some` under the same fit rule as hashing. `NoKey` weighs 0. A `MapKey` weighs the sum of its component weights, capped at `u64::MAX`. |
| `StorageReader.FullHashingWeight` | frame/evm/precompile/storage-reader/src/meta_storage_reader/key.rs:97-108 | `None` iff `hashing_weight` is `None`. Otherwise that weight plus the Twox128 weights of the pallet and entry name lengths. |
| `StorageReader.StorageKey` | frame/evm/precompile/storage-reader/src/meta_storage_reader/key.rs:79-93 | `Some` iff the key fits. The result has length `32 + len(hashed)` and is laid out as `Twox128(pallet)`, `Twox128(entry)`, then the hashed key. |
| `StorageReader.ToPalletEntryStorageKey` | frame/evm/precompile/storage-reader/src/meta_storage_reader/key.rs:79-93 | Hashing the key, then filling the zeroed final-key buffer, yields exactly that storage key, or `None`. |
| `StorageReader.EncodeKey` | frame/evm/precompile/storage-reader/src/meta_storage_reader/key.rs:47-56 | `NoKey` encodes as `[0]`. `MapKey(ks)` encodes as `ks.len() as u8`, then the length-prefixed components in order. |
| `StorageReader.DecodeKey` | frame/evm/precompile/storage-reader/src/meta_storage_reader/key.rs:58-74 | The loop reading a count byte and then that many components yields the specified decoding. A count of 0 gives `NoKey`. Any other count gives a `MapKey` with that many components. |
| `StorageReader.DecodeEncodedVec` | frame/evm/precompile/storage-reader/src/meta_storage_reader/key.rs:52-64 | With a sound compact codec, a length-prefixed component decodes to itself and leaves the bytes after it. |
| `StorageReader.DecodeEncodedComponents` | frame/evm/precompile/storage-reader/src/meta_storage_reader/key.rs:51-65 | Decoding `n` encoded components gives them back, followed by the remaining input. |
| `StorageReader.KeyRoundTrip` | frame/evm/precompile/storage-reader/src/meta_storage_reader/key.rs:47-74 | Decoding an encoded key gives it back for 1 to 255 components, with any trailing bytes left over. The empty `MapKey` encodes like `NoKey` and decodes as `NoKey`. |
| `StorageReader.KeyCountWraps` | frame/evm/precompile/storage-reader/src/meta_storage_reader/key.rs:51 | The `as u8` count wraps: a 256-component key encodes a count of 0 and decodes as `NoKey`. |
| `StorageReader.FirstEntryIndex` | frame/evm/precompile/storage-reader/src/meta_storage_reader/pallet_storage_metadata_provider.rs:12-16 | The position of the first entry with the name: no earlier entry has it. |
| `StorageReader.EntryMetadataOf` | frame/evm/precompile/storage-reader/src/meta_storage_reader/pallet_storage_metadata_provider.rs:10-20 | `None` for an unknown pallet, and `None` iff no entry has the name. Otherwise the first entry in declaration order with that name. |
| `StorageReader.PalletStorageEntryMetadata` | frame/evm/precompile/storage-reader/src/meta_storage_reader/pallet_storage_metadata_provider.rs:10-20 | The `for` loop with its early return yields exactly that lookup. |
| `StorageReader.BaseGasCost` | frame/evm/precompile/storage-reader/src/meta_storage_reader/mod.rs:107-119 | `InvalidKey` iff the key does not fit. Otherwise `weight_to_gas(full_hashing_weight)` added to the raw read base cost, capped at `u64::MAX`, and never below the raw base cost. |
| `StorageReader.DefaultBytes` | frame/evm/precompile/storage-reader/src/meta_storage_reader/mod.rs:80-81 | There is a default only for the `Default` modifier, and it is the entry's default bytes. |
| `StorageReader.MetaExecute` | frame/evm/precompile/storage-reader/src/meta_storage_reader/mod.rs:54-103 | Malformed input fails with "Failed to decode input". On success the cost never exceeds the gas limit, and the output starts with a presence byte of 0 or 1. |
| `StorageReader.UnknownEntryRejected` | frame/evm/precompile/storage-reader/src/meta_storage_reader/mod.rs:78-79 | An unknown pallet or entry fails with `PalletStorageEntryNotFound`. |
| `StorageReader.IncompatibleKeyRejected` | frame/evm/precompile/storage-reader/src/meta_storage_reader/mod.rs:83-115 | A key that does not fit fails with `InvalidKey` whatever the gas limit and the store hold. |
| `StorageReader.BaseGasCheckedBeforeRead` | frame/evm/precompile/storage-reader/src/meta_storage_reader/mod.rs:83-90 | A limit below the base cost fails with `OutOfGas` for every store, before any read. |
| `StorageReader.ExecuteSucceeds` | frame/evm/precompile/storage-reader/src/meta_storage_reader/mod.rs:90-102 | For a known entry and a fitting key, success iff there is no limit or the total fits it. The total is base ⊕ output gas of the value after default resolution and before the window. The output is the presence byte plus the windowed value. The only failure is `OutOfGas`. |
| `StorageReader.CostIgnoresWindow` | frame/evm/precompile/storage-reader/src/meta_storage_reader/mod.rs:90-95 | Requests differing only in their params succeed or fail together and are charged the same. |
| `StorageReader.AbsentValue` | frame/evm/precompile/storage-reader/src/meta_storage_reader/mod.rs:80-90 | An absent `Optional` entry answers `[0]`. An absent `Default` entry answers its windowed default. |
| `StorageReader.LenChargesWholeDefault` | frame/evm/precompile/storage-reader/src/meta_storage_reader/tests.rs:491-505 | A 102-byte default read with `Len(100)` returns 100 bytes and is charged base ⊕ output gas of 102. |
| `StorageReader.PrecompileHandle.constructor` | frame/evm/precompile/storage-reader/src/meta_storage_reader/mod.rs:55-56 | A handle carries its gas limit and starts with no recorded cost. |
| `StorageReader.PrecompileHandle.RecordCost` | frame/evm/precompile/storage-reader/src/meta_storage_reader/mod.rs:97 | Appends the cost to the recorded costs. |
| `StorageReader.Execute` | frame/evm/precompile/storage-reader/src/meta_storage_reader/mod.rs:54-103 | The step sequence returns exactly what the specification does, error for error. It records the total cost once, only on success, and records nothing on failure. |
| `ReadStorage.NewParams` | frame/evm/precompile/read_storage/src/raw_storage_reader/params.rs:21-34 | Fails with `LengthExceedsLimit` iff `len > 0x100000`. A zero offset becomes no offset. |
| `ReadStorage.TryFromInput` | frame/evm/precompile/read_storage/src/raw_storage_reader/params.rs:77-88 | Each selector goes through `new` with its offset and length. It fails iff a length exceeds the limit. |
| `ReadStorage.LowerUpper` | frame/evm/precompile/read_storage/src/raw_storage_reader/params.rs:36-54 | `lower` is the offset, or 0. `upper` is `None` without a length and `lower + len >= lower` with one. A sum that overflows a `usize` fails with `OffsetPlusLengthOverflow`. |
| `ReadStorage.ReadSpec` | frame/evm/precompile/read_storage/src/raw_storage_reader/mod.rs:39-63 | "Item not found" iff the key is absent. Otherwise a prefix of the value's tail from the offset: all of it without a length, `min(len, tail)` bytes with one. With neither offset nor length, the whole value. |
| `ReadStorage.Read` | frame/evm/precompile/read_storage/src/raw_storage_reader/mod.rs:31-67 | The buffer-and-truncate read, or the fetch-and-cut read, returns exactly that. |
| `ReadStorage.RawExecute` | frame/evm/precompile/read_storage/src/raw_storage_reader/mod.rs:24-28 | Decoding and params errors come first, with their fixed messages. Otherwise the read's result. |
| `ReadStorage.LinearCost` | frame/evm/precompile/read_storage/src/raw_storage_reader/mod.rs:21-22 | With `BASE = 3000` and `WORD = 0` the cost is 3000 whatever the input. |
| `ReadStorage.ExactlyOneSide` | frame/evm/precompile/read_storage/src/meta_storage_reader/utils.rs:10-22 | Exactly one of `to_left` and `to_right` is `Some`, and it holds the variant's value. |
| `ReadStorage.ToHashedKey` | frame/evm/precompile/read_storage/src/meta_storage_reader/key.rs:56-123 | `Some` only for a key of the entry's own shape. The results:<ul><li>`NoKey` gives empty bytes.</li><li>`MapKey` gives `hash_bytes_with(k, hasher)`.</li><li>`DoubleMapKey` gives `hash(k1, hasher)` followed by `hash(k2, key2_hasher)`.</li></ul> |
| `ReadStorage.StorageKey` | frame/evm/precompile/read_storage/src/meta_storage_reader/key.rs:39-53 | `Some` iff the key fits. The result has length `32 + len(hashed)`: `Twox128(pallet)`, then `Twox128(entry)`, then the hashed key. |
| `ReadStorage.ToPalletEntryStorageKey` | frame/evm/precompile/read_storage/src/meta_storage_reader/key.rs:39-54 | Filling the zeroed final-key buffer yields exactly that storage key. |
| `ReadStorage.ScanStop` | frame/evm/precompile/read_storage/src/meta_storage_reader/pallet_storage_metadata_provider.rs:16-20 | The scan stops at the first entry whose name is not in `Encode` form or equals the wanted name. Every entry before it has another `Encode` name. |
| `ReadStorage.EntryMetadataOf` | frame/evm/precompile/read_storage/src/meta_storage_reader/pallet_storage_metadata_provider.rs:11-24 | Returns:<ul><li>`Ok(None)` for an unknown pallet.</li><li>`InvalidMetadata` for an entry list not in `Encode` form, or a non-`Encode` name met before a match.</li><li>The first entry with the name.</li><li>`Ok(None)` when the scan ends with no match.</li></ul> |
| `ReadStorage.PalletStorageEntryMetadata` | frame/evm/precompile/read_storage/src/meta_storage_reader/pallet_storage_metadata_provider.rs:11-24 | The loop with its early returns yields exactly that lookup. |
| `ReadStorage.DefaultGetter` | frame/evm/precompile/read_storage/src/meta_storage_reader/mod.rs:53-55 | No getter for `Optional`. For `Default`, the default bytes, or "Invalid metadata" when they are not in `Encode` form. |
| `ReadStorage.SliceDefault` | frame/evm/precompile/read_storage/src/meta_storage_reader/mod.rs:70-74 | Returns `default[lower..end]` with `end = min(upper or len, len)`, or empty when `lower` exceeds `end`. Without an upper bound it is the tail from `lower`. |
| `ReadStorage.MetaExecute` | frame/evm/precompile/read_storage/src/meta_storage_reader/mod.rs:33-82 | Malformed input fails with "Failed to decode input". |
| `ReadStorage.RejectedBeforeRead` | frame/evm/precompile/read_storage/src/meta_storage_reader/mod.rs:51-60 | A rejected request fails the same way for every store. The errors:<ul><li>A provider error or a `Default` entry whose default is not in `Encode` form gives "Invalid metadata".</li><li>An unknown entry gives `MemberNotFound`.</li><li>A key of the wrong shape gives `InvalidKey`.</li><li>Invalid params give the params error's message.</li></ul> |
| `ReadStorage.AcceptedRequest` | frame/evm/precompile/read_storage/src/meta_storage_reader/mod.rs:62-80 | A stored value is answered with the raw read. An absent value gives "Item not found" for `Optional`. For `Default` it gives the default sliced by `lower_upper`, or that function's params error. |
| `ReadStorage.StoredValueWindows` | frame/evm/precompile/read_storage/src/meta_storage_reader/mod.rs:364-384 | `Offset(10)` drops ten bytes of the stored value. `OffsetAndLen{10, 50}` keeps bytes 10..60. |
| `Revisions.StorageKeysAgree` | frame/evm/precompile/storage-reader/src/meta_storage_reader/key.rs:128-140 | A current `MapKey` of one or two components on a one- or two-hasher map gives the earliest `MapKey`/`DoubleMapKey` storage key. `NoKey` agrees too. |
| `Revisions.OlderReadIsCurrentWindow` | frame/evm/precompile/storage-reader/src/raw_storage_reader/mod.rs:84-106 | For params the older revision accepts (`len <= 0x3e800`) and a value a `usize` can measure, the older bounded-buffer read equals the current reader's `apply_params` on the whole value. An absent key gives `None` on both sides. |
| `Revisions.EarliestReadIsCurrentWindow` | frame/evm/precompile/read_storage/src/raw_storage_reader/mod.rs:39-63 | For a stored value a `usize` can measure and params the earliest revision accepts (`len <= 0x100000`), the earliest read returns the bytes of the current reader's `apply_params` window. |

## Left out

- The SCALE codec:
  - The compact length prefix is a `CompactCodec` parameter; the only assumption is that a prefix decodes back to its length.
  - The derived `Encode`/`Decode` of the input structs (`input.rs` in each crate) is not modelled. Each execute takes the decoded input, or `None` for a decoding failure.
  - Names are bytes; UTF-8 validation of `String`/`str` decoding is not modelled.
- The digest functions (BLAKE2 per RFC 7693, xxHash-based Twox) are parameters; only their output widths are fixed. The hasher weight table (`weights.rs`) and `weight_to_gas` are parameters too; `weight_to_gas` is assumed monotone only in `StorageReaderLegacy.OutputGasMonotone`.
- The current meta reader calls a one-argument `RawStorageReader::read` from a raw reader revision that is not part of this model. It is modelled as the storage lookup `Get`: present bytes become `Item`, absence becomes `None`.
- `StorageReader.BaseGasCost` and `StorageReader.OutputGasCost`: the current meta reader also takes `base_gas_cost` and `output_gas_cost` from that raw-reader revision. They are modelled with the older revision's definitions: `StorageReaderLegacy.RawBaseGasCost` is the gas of one read weight, and `StorageReaderLegacy.OutputGasCost` is the gas of the per-byte weight times the length, saturated. They are assumed unchanged.
- `StorageReader.FullHashingWeight`: the plain `+` of `Weight` values is unbounded here. A `u64` overflow of that sum is not modelled.
- `StorageReaderLegacy.Execute`: the plain `+` of base and output gas is unbounded here. A `u64` overflow of that sum is not modelled.
- `StorageReader.PrecompileHandle.RecordCost`: a failing `record_cost` is not modelled. The handle's own gas accounting is runtime code, and both checks have passed by then.
- `Host.Read`: the `u32` return value of `sp_io::storage::read` and its `as usize` cast are taken as exact lengths.
- `StorageReaderLegacy.Read`: the source wraps the value in a `Result` that is always `Ok`; the model returns the value directly.
- The `Overflow` params errors of both older revisions convert `u32` to `usize` and cannot fire with a 32-bit `usize`. They are declared but not produced.
- The `InvalidParams` branch of the earliest raw read (`Some(..).ok_or`) cannot fire and is not modelled.
- `ReadStorage.LinearCost`: the linear-cost formula belongs to `fp_evm`, which is not part of this model; it is written as `BASE + WORD * words(input)`.
- The metadata types keep only the fields the readers use:
  - names, modifier, entry shape and default bytes;
  - the value and key type names, the documentation and the pallet prefix are dropped.
- Logging (`debug!`, `trace!`, `error!`) and the `PrecompileFailure` wrapping are not modelled. Errors are kept as their `ExitError` messages.
- The key constructors `MapKey::new_single`/`new_double`/`new` (SCALE-encode a typed key) are not modelled; keys are given as bytes.
- The crate wiring, mocks, benchmarks and tests are not modelled; the tests only supply expected values.
