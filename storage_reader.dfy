/**
 * The current revision of the `storage-reader` crate: the offset/length
 * window and value helpers of `common/`, the gas guard, and the meta
 * storage reader, which turns a pallet name, an entry name and a logical
 * key into a storage key using the entry's metadata, reads the value,
 * substitutes the declared default for an absent `Default` entry, charges
 * gas at two checkpoints and returns a presence byte and the windowed bytes.
 */
module StorageReader {
  import opened Primitives
  import opened Hashing
  import opened Host
  import opened Output
  import StorageReaderLegacy
  import PalletProvider

  // ---------------------------------------------------------------------
  // common/params.rs
  // ---------------------------------------------------------------------

  /**
   * `Params::to_range`: the window of a `max`-byte value a selector asks
   * for, or `None` when it asks for no narrowing (no params, or an offset of
   * zero, which is not a `NonZeroU32`). The window always lies within `max`.
   */
  function ToRange(p: InputParams, max: nat): (r: Option<Range>)
    ensures r.None? <==> p.NoParams? || p == Offset(0)
    ensures r.Some? ==> r.value.lower <= r.value.upper <= max
    ensures p.Len? ==> r == Some(Range(0, Min(p.len, max)))
    ensures p.Offset? && p.offset > 0 ==> r == Some(Range(Min(p.offset, max), max))
    ensures p.OffsetAndLen? ==>
      var end := p.offset + p.len;
      var upper := if end <= USIZE_MAX then Min(end, max) else max;
      r == Some(Range(Min(p.offset, upper), upper))
  {
    var (offset, len) :=
      match p
      case NoParams => (None, None)
      case Offset(offset) => (NonZero(offset), None)
      case Len(len) => (None, Some(len))
      case OffsetAndLen(offset, len) => (NonZero(offset), Some(len));
    if offset.None? && len.None? then None
    else
      var lower: nat := match offset { case Some(o) => o case None => 0 };
      var upper := Min(match len { case Some(l) => CheckedAdd(l, lower).GetOr(max) case None => max }, max);
      Some(Range(Min(lower, upper), upper))
  }

  /**
   * On a value whose length a `usize` can hold, an offset-and-length window
   * is `min(offset, max)..min(offset + len, max)`; a zero length gives an
   * empty window, not `None`.
   */
  lemma ToRangeOffsetAndLen(offset: u32, len: u32, max: nat)
    requires max <= USIZE_MAX
    ensures ToRange(OffsetAndLen(offset, len), max) == Some(Range(Min(offset, max), Min(offset + len, max)))
    ensures len == 0 ==> var r := ToRange(OffsetAndLen(offset, len), max).value; r.lower == r.upper
  {
  }

  // ---------------------------------------------------------------------
  // common/output.rs
  // ---------------------------------------------------------------------

  /**
   * `RawStorageValue::or_default`: a present value is never overridden; an
   * absent one becomes the default bytes when there are any.
   */
  function OrDefault(v: RawStorageValue, default: Option<Bytes>): (r: RawStorageValue)
    ensures v.Item? ==> r == v
    ensures v.NoValue? ==> r == FromOption(default)
    ensures r.NoValue? <==> v.NoValue? && default.None?
  {
    match v
    case NoValue => FromOption(default)
    case Item(_) => v
  }

  /**
   * `RawStorageValue::apply_params`: an absent value stays absent; a present
   * one stays present and is cut to the window `to_range` computes against
   * its own length, so the slice is always in bounds.
   */
  function ApplyParams(v: RawStorageValue, p: InputParams): (r: RawStorageValue)
    ensures v.NoValue? <==> r.NoValue?
    ensures v.Item? && ToRange(p, |v.bytes|).None? ==> r == v
    ensures v.Item? && ToRange(p, |v.bytes|).Some? ==>
      var rg := ToRange(p, |v.bytes|).value;
      r.bytes == v.bytes[rg.lower..rg.upper]
    ensures ValueLen(r) <= ValueLen(v)
  {
    match v
    case Item(bytes) =>
      var item := match ToRange(p, |bytes|) {
        case Some(rg) => bytes[rg.lower..rg.upper]
        case None => bytes
      };
      Item(item)
    case NoValue => NoValue
  }

  /**
   * A default is resolved before the window is applied, so the window is
   * measured against the default's own length.
   */
  lemma DefaultBeforeWindow(default: Bytes, len: u32)
    ensures ApplyParams(OrDefault(NoValue, Some(default)), Len(len)) == Item(default[..Min(len, |default|)])
  {
  }

  /**
   * Windows past the end are clamped: offset 30 and length 5 on a 32-byte
   * value leave 2 bytes, and offset 2 with length 0 leaves a present, empty value.
   */
  lemma WindowExamples(value: Bytes)
    requires |value| == 32
    ensures ApplyParams(Item(value), OffsetAndLen(30, 5)) == Item(value[30..32])
    ensures ApplyParams(Item(value), OffsetAndLen(2, 0)) == Item([])
    ensures Encoding(ApplyParams(Item(value), OffsetAndLen(2, 0))) == [1]
  {
  }

  // ---------------------------------------------------------------------
  // common/mod.rs
  // ---------------------------------------------------------------------

  /**
   * `ensure_enough_gas!`: with a gas limit, rejects with `OutOfGas` exactly
   * when the limit is below what is required (an equal limit passes); without
   * one, never rejects.
   */
  function EnsureEnoughGas(targetGas: Option<u64>, required: nat): (r: Result<(), ExitError>)
    ensures r.Err? <==> targetGas.Some? && targetGas.value < required
    ensures r.Err? ==> r.error == OutOfGas
    ensures targetGas.None? ==> r == Ok(())
  {
    match targetGas
    case Some(t) => if t < required then Err(OutOfGas) else Ok(())
    case None => Ok(())
  }

  // ---------------------------------------------------------------------
  // meta_storage_reader/key.rs
  // ---------------------------------------------------------------------

  /** The shape of a storage entry, from its metadata. */
  datatype StorageEntryType = Plain | Map(hashers: seq<StorageHasher>)

  /** `Key`: `NoKey` for a plain value, `MapKey` with one component per hasher. */
  datatype Key = NoKey | MapKey(keys: seq<Bytes>)

  /** A key fits an entry when it has exactly one component per declared hasher. */
  predicate Compatible(key: Key, ty: StorageEntryType) {
    match key
    case NoKey => ty.Plain?
    case MapKey(keys) => ty.Map? && |ty.hashers| == |keys|
  }

  /** Each component hashed with the hasher at its position, concatenated in order. */
  function HashComponents(hs: Hashers, keys: seq<Bytes>, hashers: seq<StorageHasher>): Bytes
    requires |keys| == |hashers|
  {
    if keys == [] then []
    else HashBytesWith(hs, keys[0], hashers[0]) + HashComponents(hs, keys[1..], hashers[1..])
  }

  /** Hashing a key split in two gives the two halves' hashes, one after the other. */
  lemma {:induction false} HashComponentsAppend(hs: Hashers, k1: seq<Bytes>, h1: seq<StorageHasher>, k2: seq<Bytes>, h2: seq<StorageHasher>)
    requires |k1| == |h1| && |k2| == |h2|
    ensures HashComponents(hs, k1 + k2, h1 + h2) == HashComponents(hs, k1, h1) + HashComponents(hs, k2, h2)
  {
    if k1 != [] {
      assert (k1 + k2)[1..] == k1[1..] + k2;
      assert (h1 + h2)[1..] == h1[1..] + h2;
      HashComponentsAppend(hs, k1[1..], h1[1..], k2, h2);
    } else {
      assert k1 + k2 == k2 && h1 + h2 == h2;
    }
  }

  /** The hashed key is as long as the digests plus the inputs of the concat hashers. */
  function HashedLength(keys: seq<Bytes>, hashers: seq<StorageHasher>): nat
    requires |keys| == |hashers|
  {
    if keys == [] then 0
    else DigestWidth(hashers[0]) + (if IsConcat(hashers[0]) then |keys[0]| else 0) + HashedLength(keys[1..], hashers[1..])
  }

  lemma {:induction false} HashComponentsLength(hs: Hashers, keys: seq<Bytes>, hashers: seq<StorageHasher>)
    requires |keys| == |hashers|
    ensures |HashComponents(hs, keys, hashers)| == HashedLength(keys, hashers)
  {
    if keys != [] {
      HashComponentsLength(hs, keys[1..], hashers[1..]);
    }
  }

  /**
   * `to_hashed_key`: `None` when the key does not fit the entry; otherwise
   * nothing for a plain entry, and the in-order concatenation of each
   * component hashed with its hasher for a map.
   */
  function ToHashedKey(hs: Hashers, key: Key, ty: StorageEntryType): (r: Option<Bytes>)
    ensures r.Some? <==> Compatible(key, ty)
    ensures r.Some? && key.NoKey? ==> r.value == []
    ensures r.Some? && key.MapKey? ==> r.value == HashComponents(hs, key.keys, ty.hashers)
    ensures r.Some? && key.MapKey? ==> |r.value| == HashedLength(key.keys, ty.hashers)
  {
    match key
    case NoKey => (match ty { case Plain => Some([]) case _ => None })
    case MapKey(keys) =>
      match ty
      case Map(hashers) =>
        if |hashers| == |keys| then
          HashComponentsLength(hs, keys, hashers);
          Some(HashComponents(hs, keys, hashers))
        else None
      case _ => None
  }

  /** The weight table and digest functions of the runtime, plus its gas configuration. */
  datatype Runtime = Runtime(
    hashers: Hashers,
    hasherWeight: (StorageHasher, u32) -> u64,  // `hasher_weight`, by hasher and input length
    gas: StorageReaderLegacy.GasConfig
  )

  /** The weight of hashing each component, its length cast to `u32`. */
  function ComponentWeights(rt: Runtime, keys: seq<Bytes>, hashers: seq<StorageHasher>): (ws: seq<u64>)
    requires |keys| == |hashers|
    ensures |ws| == |keys|
    ensures forall i | 0 <= i < |keys| :: ws[i] == rt.hasherWeight(hashers[i], AsU32(|keys[i]|))
  {
    if keys == [] then []
    else [rt.hasherWeight(hashers[0], AsU32(|keys[0]|))] + ComponentWeights(rt, keys[1..], hashers[1..])
  }

  function Sum(ws: seq<u64>): nat {
    if ws == [] then 0 else ws[0] + Sum(ws[1..])
  }

  /** `fold(acc, saturating_add)`. */
  function SaturatingFold(acc: u64, ws: seq<u64>): u64
    decreases |ws|
  {
    if ws == [] then acc else SaturatingFold(SaturatingAdd(acc, ws[0]), ws[1..])
  }

  /** A saturating fold is the exact sum, capped at `u64::MAX`. */
  lemma {:induction false} SaturatingFoldIsCappedSum(acc: u64, ws: seq<u64>)
    ensures SaturatingFold(acc, ws) == Min(acc + Sum(ws), U64_MAX)
    decreases |ws|
  {
    if ws != [] {
      SaturatingFoldIsCappedSum(SaturatingAdd(acc, ws[0]), ws[1..]);
    }
  }

  /**
   * `hashing_weight`: `None` under the same rule as `to_hashed_key`; zero for
   * a plain key; otherwise the sum of the components' hashing weights,
   * saturated at `u64::MAX`.
   */
  function HashingWeight(rt: Runtime, key: Key, ty: StorageEntryType): (r: Option<u64>)
    ensures r.Some? <==> Compatible(key, ty)
    ensures r.Some? && key.NoKey? ==> r.value == 0
    ensures r.Some? && key.MapKey? ==> r.value == Min(Sum(ComponentWeights(rt, key.keys, ty.hashers)), U64_MAX)
  {
    match key
    case NoKey => (match ty { case Plain => Some(0) case _ => None })
    case MapKey(keys) =>
      match ty
      case Map(hashers) =>
        if |hashers| == |keys| then
          var ws := ComponentWeights(rt, keys, hashers);
          SaturatingFoldIsCappedSum(0, ws);
          Some(SaturatingFold(0, ws))
        else None
      case _ => None
  }

  /**
   * `full_hashing_weight`: the key's hashing weight plus the Twox128 weights
   * of the pallet and entry names (plain, unbounded addition); `None` exactly
   * when the key does not fit.
   */
  function FullHashingWeight(rt: Runtime, key: Key, pallet: Name, entry: Name, ty: StorageEntryType): (r: Option<nat>)
    ensures r.Some? <==> HashingWeight(rt, key, ty).Some?
    ensures r.Some? ==> (r.value ==
      HashingWeight(rt, key, ty).value
        + rt.hasherWeight(Twox128, AsU32(|pallet|))
        + rt.hasherWeight(Twox128, AsU32(|entry|)))
  {
    match HashingWeight(rt, key, ty)
    case None => None
    case Some(w) =>
      Some(w + rt.hasherWeight(Twox128, AsU32(|pallet|)) + rt.hasherWeight(Twox128, AsU32(|entry|)))
  }

  /**
   * The storage key for a key that fits: `Twox128(pallet) ++ Twox128(entry)
   * ++ hashed key`, 32 bytes longer than the hashed key. The final-key layout
   * is the same as in the earliest revision (`ReadStorage.StorageKey`); only
   * the hashed key differs, and `Revisions.StorageKeysAgree` relates the two.
   */
  function StorageKey(hs: Hashers, key: Key, pallet: Name, entry: Name, ty: StorageEntryType): (r: Option<Bytes>)
    ensures r.Some? <==> Compatible(key, ty)
    ensures r.Some? ==>
      var hashed := ToHashedKey(hs, key, ty).value;
      && |r.value| == 32 + |hashed|
      && r.value[..16] == hs.twox128(pallet)
      && r.value[16..32] == hs.twox128(entry)
      && r.value[32..] == hashed
  {
    match ToHashedKey(hs, key, ty)
    case None => None
    case Some(hashed) =>
      FinalKeyParts(hs, pallet, entry, hashed);
      Some(FinalKey(hs, pallet, entry, hashed))
  }

  /**
   * `to_pallet_entry_storage_key`: hashes the key, then fills the final key
   * buffer, as the earliest revision's `ReadStorage.ToPalletEntryStorageKey` does.
   */
  method ToPalletEntryStorageKey(hs: Hashers, key: Key, pallet: Name, entry: Name, ty: StorageEntryType)
    returns (r: Option<Bytes>)
    ensures r == StorageKey(hs, key, pallet, entry, ty)
  {
    var storageKey := ToHashedKey(hs, key, ty);
    if storageKey.None? {
      return None;
    }
    var finalKey := FillFinalKey(hs, pallet, entry, storageKey.value);
    r := Some(finalKey);
  }

  // Key codec (`impl Encode for Key`, `impl Decode for Key`).

  /**
   * SCALE's compact length prefix, which is library code: `encode` gives the
   * prefix of a length, `decode` reads one off the front of some bytes and
   * returns it with the number of bytes it took.
   */
  datatype CompactCodec = CompactCodec(encode: nat -> Bytes, decode: Bytes -> Option<(nat, nat)>)

  /** A prefix decodes back to its length, whatever follows it. */
  ghost predicate SoundCodec(c: CompactCodec) {
    forall n: nat, rest: Bytes :: c.decode(c.encode(n) + rest) == Some((n, |c.encode(n)|))
  }

  /** `Vec<u8>::encode`: the compact length, then the bytes. */
  function EncodeVec(c: CompactCodec, bytes: Bytes): Bytes {
    c.encode(|bytes|) + bytes
  }

  function EncodeComponents(c: CompactCodec, keys: seq<Bytes>): Bytes {
    if keys == [] then [] else EncodeVec(c, keys[0]) + EncodeComponents(c, keys[1..])
  }

  /** `Key::encode`: the component count as one byte, then each component length-prefixed. */
  function EncodeKey(c: CompactCodec, key: Key): (r: Bytes)
    ensures |r| >= 1
    ensures key.NoKey? ==> r == [0]
    ensures key.MapKey? ==> r[0] == AsU8(|key.keys|) && r[1..] == EncodeComponents(c, key.keys)
  {
    match key
    case NoKey => [0]
    case MapKey(keys) => [AsU8(|keys|)] + EncodeComponents(c, keys)
  }

  /** `Vec<u8>::decode`: a compact length, then that many bytes; the rest is returned. */
  function DecodeVec(c: CompactCodec, input: Bytes): Option<(Bytes, Bytes)> {
    match c.decode(input)
    case None => None
    case Some((n, used)) =>
      if used + n <= |input| then Some((input[used..used + n], input[used + n..])) else None
  }

  /** Decodes `count` more components after those already in `acc`. */
  function DecodeComponents(c: CompactCodec, input: Bytes, count: nat, acc: seq<Bytes>): Option<(seq<Bytes>, Bytes)>
    decreases count
  {
    if count == 0 then Some((acc, input))
    else
      match DecodeVec(c, input)
      case None => None
      case Some((item, rest)) => DecodeComponents(c, rest, count - 1, acc + [item])
  }

  /** What `Key::decode` yields: the key and the input left after it, or `None` on a decoding error. */
  function DecodeKeySpec(c: CompactCodec, input: Bytes): Option<(Key, Bytes)> {
    if |input| == 0 then None
    else
      match DecodeComponents(c, input[1..], input[0], [])
      case None => None
      case Some((keys, rest)) => Some((if input[0] == 0 then NoKey else MapKey(keys), rest))
  }

  /**
   * `Key::decode`: reads the count byte, then pushes that many decoded
   * components; a count of 0 gives `NoKey`.
   */
  method DecodeKey(c: CompactCodec, input: Bytes) returns (r: Option<(Key, Bytes)>)
    ensures r == DecodeKeySpec(c, input)
    ensures r.Some? ==> (r.value.0.NoKey? <==> input[0] == 0)
    ensures r.Some? && r.value.0.MapKey? ==> |r.value.0.keys| == input[0]
  {
    if |input| == 0 {
      return None;
    }
    var len := input[0];
    var rest := input[1..];
    var res: seq<Bytes> := [];
    for i := 0 to len
      invariant |res| == i
      invariant DecodeComponents(c, input[1..], len, []) == DecodeComponents(c, rest, len - i, res)
    {
      var item := DecodeVec(c, rest);
      if item.None? {
        return None;
      }
      res := res + [item.value.0];
      rest := item.value.1;
    }
    r := Some((if len == 0 then NoKey else MapKey(res), rest));
  }

  /** One length-prefixed component decodes back to itself, leaving what followed it. */
  lemma DecodeEncodedVec(c: CompactCodec, k: Bytes, tail: Bytes)
    requires SoundCodec(c)
    ensures DecodeVec(c, EncodeVec(c, k) + tail) == Some((k, tail))
  {
    var prefix := c.encode(|k|);
    var input := EncodeVec(c, k) + tail;
    assert input == prefix + (k + tail);
    assert c.decode(prefix + (k + tail)) == Some((|k|, |prefix|));
    assert input[|prefix|..|prefix| + |k|] == k;
    assert input[|prefix| + |k|..] == tail;
  }

  /** Decoding `n` encoded components gives them back, followed by whatever came after. */
  lemma {:induction false} DecodeEncodedComponents(c: CompactCodec, keys: seq<Bytes>, rest: Bytes, acc: seq<Bytes>)
    requires SoundCodec(c)
    ensures DecodeComponents(c, EncodeComponents(c, keys) + rest, |keys|, acc) == Some((acc + keys, rest))
  {
    if keys == [] {
      assert acc + keys == acc;
      assert EncodeComponents(c, keys) + rest == rest;
    } else {
      var tail := EncodeComponents(c, keys[1..]) + rest;
      assert EncodeComponents(c, keys) + rest == EncodeVec(c, keys[0]) + tail;
      DecodeEncodedVec(c, keys[0], tail);
      DecodeEncodedComponents(c, keys[1..], rest, acc + [keys[0]]);
      assert acc + [keys[0]] + keys[1..] == acc + keys;
    }
  }

  /**
   * Decoding an encoded key gives it back when it has 1 to 255 components;
   * `NoKey` and the empty `MapKey` both encode as `[0]` and decode as `NoKey`.
   */
  lemma KeyRoundTrip(c: CompactCodec, key: Key, rest: Bytes)
    requires SoundCodec(c)
    requires key.MapKey? ==> |key.keys| <= 255
    ensures DecodeKeySpec(c, EncodeKey(c, key) + rest) == Some((if key == MapKey([]) then NoKey else key, rest))
    ensures EncodeKey(c, MapKey([])) == EncodeKey(c, NoKey)
  {
    var input := EncodeKey(c, key) + rest;
    match key
    case NoKey =>
      assert input[1..] == rest;
    case MapKey(keys) =>
      assert input[1..] == EncodeComponents(c, keys) + rest;
      DecodeEncodedComponents(c, keys, rest, []);
      assert [] + keys == keys;
  }

  /** The count byte wraps: a key of 256 components reads back as `NoKey`. */
  lemma KeyCountWraps(c: CompactCodec, keys: seq<Bytes>)
    requires |keys| == 256
    ensures EncodeKey(c, MapKey(keys))[0] == 0
    ensures DecodeKeySpec(c, EncodeKey(c, MapKey(keys))) == Some((NoKey, EncodeComponents(c, keys)))
  {
    assert EncodeKey(c, MapKey(keys))[1..] == EncodeComponents(c, keys);
  }

  // ---------------------------------------------------------------------
  // meta_storage_reader/pallet_storage_metadata_provider.rs
  // ---------------------------------------------------------------------

  datatype StorageEntryModifier = Optional | Default

  datatype StorageEntryMetadata = StorageEntryMetadata(
    name: Name,
    modifier: StorageEntryModifier,
    ty: StorageEntryType,
    default: Bytes
  )

  datatype PalletStorageMetadata = PalletStorageMetadata(prefix: Name, entries: seq<StorageEntryMetadata>)

  /** The pallets `impl_pallet_storage_metadata_provider!` lists, with their storage metadata. */
  type PalletRegistry = PalletProvider.Arms<PalletStorageMetadata>

  /** Index of the first entry called `entry`, or `|entries|` when none is. */
  function FirstEntryIndex(entries: seq<StorageEntryMetadata>, entry: Name): (i: nat)
    ensures i <= |entries|
    ensures forall j | 0 <= j < i :: entries[j].name != entry
    ensures i < |entries| ==> entries[i].name == entry
    decreases |entries|
  {
    if entries == [] || entries[0].name == entry then 0 else 1 + FirstEntryIndex(entries[1..], entry)
  }

  /**
   * What `pallet_storage_entry_metadata` returns: `None` for an unknown
   * pallet or when no entry has the name; otherwise the first entry, in
   * declaration order, with that name.
   */
  function EntryMetadataOf(reg: PalletRegistry, pallet: Name, entry: Name): (r: Option<StorageEntryMetadata>)
    ensures PalletProvider.PalletStorageMetadataOf(reg, pallet).None? ==> r.None?
    ensures r.Some? ==> r.value.name == entry
    ensures PalletProvider.PalletStorageMetadataOf(reg, pallet).Some? ==>
      var entries := PalletProvider.PalletStorageMetadataOf(reg, pallet).value.entries;
      && (r.None? <==> forall i | 0 <= i < |entries| :: entries[i].name != entry)
      && (r.Some? ==> r.value == entries[FirstEntryIndex(entries, entry)])
  {
    match PalletProvider.PalletStorageMetadataOf(reg, pallet)
    case None => None
    case Some(meta) =>
      var i := FirstEntryIndex(meta.entries, entry);
      if i < |meta.entries| then Some(meta.entries[i]) else None
  }

  /** `pallet_storage_entry_metadata`: scans the pallet's entries in order and returns at the first name match. */
  method PalletStorageEntryMetadata(reg: PalletRegistry, pallet: Name, entry: Name)
    returns (r: Option<StorageEntryMetadata>)
    ensures r == EntryMetadataOf(reg, pallet, entry)
  {
    var palletMeta := PalletProvider.PalletStorageMetadataOf(reg, pallet);
    if palletMeta.Some? {
      var entries := palletMeta.value.entries;
      for i := 0 to |entries|
        invariant forall j | 0 <= j < i :: entries[j].name != entry
      {
        if entries[i].name == entry {
          return Some(entries[i]);
        }
      }
    }
    return None;
  }

  // ---------------------------------------------------------------------
  // meta_storage_reader/mod.rs
  // ---------------------------------------------------------------------

  datatype Error = PalletStorageEntryNotFound | InvalidMetadata | InvalidKey | Decoding

  function ErrorMessage(e: Error): string {
    match e
    case InvalidMetadata => "Invalid metadata"
    case PalletStorageEntryNotFound => "Pallet storage entry not found"
    case InvalidKey => "Invalid key"
    case Decoding => "Failed to decode input"
  }

  /** `From<Error> for PrecompileFailure`: each error becomes its fixed message. */
  function Failure(e: Error): ExitError {
    Other(ErrorMessage(e))
  }

  /**
   * `base_gas_cost`: gas for hashing the key and both names, saturating-added
   * to the gas of one storage read; `InvalidKey` when the key does not fit.
   */
  function BaseGasCost(rt: Runtime, pallet: Name, entry: Name, key: Key, ty: StorageEntryType): (r: Result<u64, ExitError>)
    ensures r.Err? <==> !Compatible(key, ty)
    ensures r.Err? ==> r.error == Failure(InvalidKey)
    ensures r.Ok? ==>
      r.value == Min(rt.gas.weightToGas(FullHashingWeight(rt, key, pallet, entry, ty).value)
        + StorageReaderLegacy.RawBaseGasCost(rt.gas), U64_MAX)
    ensures r.Ok? ==> r.value >= StorageReaderLegacy.RawBaseGasCost(rt.gas)
  {
    match FullHashingWeight(rt, key, pallet, entry, ty)
    case None => Err(Failure(InvalidKey))
    case Some(weight) =>
      Ok(SaturatingAdd(rt.gas.weightToGas(weight), StorageReaderLegacy.RawBaseGasCost(rt.gas)))
  }

  /** `output_gas_cost`: delegated to the raw reader. */
  function OutputGasCost(rt: Runtime, outputLen: nat): u64 {
    StorageReaderLegacy.OutputGasCost(rt.gas, outputLen)
  }

  /** The default getter: the entry's default bytes, for a `Default` entry only. */
  function DefaultBytes(meta: StorageEntryMetadata): (r: Option<Bytes>)
    ensures r.Some? <==> meta.modifier == Default
    ensures r.Some? ==> r.value == meta.default
  {
    if meta.modifier == Default then Some(meta.default) else None
  }

  /** `MetaStorageReaderInput`, already decoded. */
  datatype MetaStorageReaderInput = MetaStorageReaderInput(pallet: Name, entry: Name, key: Key, params: InputParams)

  /** A successful call: the output bytes and the gas recorded for them. */
  datatype Charged = Charged(output: Bytes, cost: u64)

  /**
   * `MetaStorageReader::execute`, as a function of the metadata, the store,
   * the decoded input (`None` when decoding failed) and the gas limit.
   */
  function MetaExecute(
    rt: Runtime, reg: PalletRegistry, store: Storage,
    decoded: Option<MetaStorageReaderInput>, targetGas: Option<u64>
  ): (r: Result<Charged, ExitError>)
    ensures decoded.None? ==> r == Err(Failure(Decoding))
    ensures r.Ok? && targetGas.Some? ==> r.value.cost <= targetGas.value
    ensures r.Ok? ==> |r.value.output| >= 1 && (r.value.output[0] == 0 || r.value.output[0] == 1)
  {
    match decoded
    case None => Err(Failure(Decoding))
    case Some(input) =>
      match EntryMetadataOf(reg, input.pallet, input.entry)
      case None => Err(Failure(PalletStorageEntryNotFound))
      case Some(meta) =>
        var defaultBytes := DefaultBytes(meta);
        match BaseGasCost(rt, input.pallet, input.entry, input.key, meta.ty)
        case Err(e) => Err(e)
        case Ok(baseGasCost) =>
          if EnsureEnoughGas(targetGas, baseGasCost).Err? then Err(OutOfGas)
          else
            match StorageKey(rt.hashers, input.key, input.pallet, input.entry, meta.ty)
            case None => Err(Failure(InvalidKey))
            case Some(storageKey) =>
              var rawOutput := OrDefault(FromOption(Get(store, storageKey)), defaultBytes);
              var totalGasCost := SaturatingAdd(baseGasCost, OutputGasCost(rt, ValueLen(rawOutput)));
              if EnsureEnoughGas(targetGas, totalGasCost).Err? then Err(OutOfGas)
              else Ok(Charged(Encoding(ApplyParams(rawOutput, input.params)), totalGasCost))
  }

  /** The value the reader answers with: the stored one, or the default of a `Default` entry. */
  function ResolvedValue(rt: Runtime, store: Storage, input: MetaStorageReaderInput, meta: StorageEntryMetadata): RawStorageValue
    requires Compatible(input.key, meta.ty)
  {
    var storageKey := StorageKey(rt.hashers, input.key, input.pallet, input.entry, meta.ty).value;
    OrDefault(FromOption(Get(store, storageKey)), DefaultBytes(meta))
  }

  /** An unknown pallet or entry fails with `PalletStorageEntryNotFound`. */
  lemma UnknownEntryRejected(rt: Runtime, reg: PalletRegistry, store: Storage, input: MetaStorageReaderInput, targetGas: Option<u64>)
    requires EntryMetadataOf(reg, input.pallet, input.entry).None?
    ensures MetaExecute(rt, reg, store, Some(input), targetGas) == Err(Failure(PalletStorageEntryNotFound))
  {
  }

  /**
   * A key that does not fit the entry fails with `InvalidKey` whatever the
   * gas limit and whatever the store holds: it is found while computing the
   * base gas, before any gas check or read.
   */
  lemma IncompatibleKeyRejected(rt: Runtime, reg: PalletRegistry, store: Storage, input: MetaStorageReaderInput, targetGas: Option<u64>)
    requires EntryMetadataOf(reg, input.pallet, input.entry).Some?
    requires !Compatible(input.key, EntryMetadataOf(reg, input.pallet, input.entry).value.ty)
    ensures MetaExecute(rt, reg, store, Some(input), targetGas) == Err(Failure(InvalidKey))
  {
  }

  /** A gas limit below the base cost fails with `OutOfGas` before the store is consulted. */
  lemma BaseGasCheckedBeforeRead(rt: Runtime, reg: PalletRegistry, store: Storage, input: MetaStorageReaderInput, t: u64)
    requires EntryMetadataOf(reg, input.pallet, input.entry).Some?
    requires var meta := EntryMetadataOf(reg, input.pallet, input.entry).value;
      var base := BaseGasCost(rt, input.pallet, input.entry, input.key, meta.ty);
      base.Ok? && t < base.value
    ensures MetaExecute(rt, reg, store, Some(input), Some(t)) == Err(OutOfGas)
  {
  }

  /**
   * A successful call charges the base cost saturating-added to the output
   * gas of the value after default resolution and before the window, and
   * answers with the presence byte and the windowed value. Without a gas
   * limit a call whose entry exists and whose key fits always succeeds.
   */
  lemma ExecuteSucceeds(rt: Runtime, reg: PalletRegistry, store: Storage, input: MetaStorageReaderInput, targetGas: Option<u64>)
    requires EntryMetadataOf(reg, input.pallet, input.entry).Some?
    requires Compatible(input.key, EntryMetadataOf(reg, input.pallet, input.entry).value.ty)
    ensures var meta := EntryMetadataOf(reg, input.pallet, input.entry).value;
      var raw := ResolvedValue(rt, store, input, meta);
      var base := BaseGasCost(rt, input.pallet, input.entry, input.key, meta.ty).value;
      var total := SaturatingAdd(base, OutputGasCost(rt, ValueLen(raw)));
      var r := MetaExecute(rt, reg, store, Some(input), targetGas);
      && (r.Ok? <==> targetGas.None? || total <= targetGas.value)
      && (r.Ok? ==> r.value == Charged(Encoding(ApplyParams(raw, input.params)), total))
      && (r.Err? ==> r == Err(OutOfGas))
  {
  }

  /**
   * The gas charged does not depend on the window: two requests that differ
   * only in their params succeed or fail together and cost the same.
   */
  lemma CostIgnoresWindow(rt: Runtime, reg: PalletRegistry, store: Storage, input: MetaStorageReaderInput, params: InputParams, targetGas: Option<u64>)
    ensures var r1 := MetaExecute(rt, reg, store, Some(input), targetGas);
      var r2 := MetaExecute(rt, reg, store, Some(input.(params := params)), targetGas);
      && (r1.Ok? <==> r2.Ok?)
      && (r1.Ok? ==> r1.value.cost == r2.value.cost)
      && (r1.Err? ==> r1 == r2)
  {
  }

  /**
   * An absent value is answered with `[0]` for an `Optional` entry and with
   * its windowed default for a `Default` entry.
   */
  lemma AbsentValue(rt: Runtime, reg: PalletRegistry, store: Storage, input: MetaStorageReaderInput, targetGas: Option<u64>)
    requires EntryMetadataOf(reg, input.pallet, input.entry).Some?
    requires var meta := EntryMetadataOf(reg, input.pallet, input.entry).value;
      Compatible(input.key, meta.ty) && StorageKey(rt.hashers, input.key, input.pallet, input.entry, meta.ty).value !in store
    requires MetaExecute(rt, reg, store, Some(input), targetGas).Ok?
    ensures var meta := EntryMetadataOf(reg, input.pallet, input.entry).value;
      var out := MetaExecute(rt, reg, store, Some(input), targetGas).value.output;
      && (meta.modifier == Optional ==> out == [0])
      && (meta.modifier == Default ==> out == Encoding(ApplyParams(Item(meta.default), input.params)))
  {
    ExecuteSucceeds(rt, reg, store, input, targetGas);
  }

  /**
   * An absent `Default` entry whose default is 102 bytes, read with
   * `Len(100)`, answers with 100 of them but is charged for all 102.
   */
  lemma LenChargesWholeDefault(rt: Runtime, reg: PalletRegistry, store: Storage, input: MetaStorageReaderInput)
    requires EntryMetadataOf(reg, input.pallet, input.entry).Some?
    requires var meta := EntryMetadataOf(reg, input.pallet, input.entry).value;
      && meta.modifier == Default && |meta.default| == 102
      && Compatible(input.key, meta.ty)
      && StorageKey(rt.hashers, input.key, input.pallet, input.entry, meta.ty).value !in store
    requires input.params == Len(100)
    ensures var meta := EntryMetadataOf(reg, input.pallet, input.entry).value;
      var base := BaseGasCost(rt, input.pallet, input.entry, input.key, meta.ty).value;
      var r := MetaExecute(rt, reg, store, Some(input), None);
      && r.Ok?
      && r.value.cost == SaturatingAdd(base, OutputGasCost(rt, 102))
      && r.value.output == [1] + meta.default[..100]
  {
    ExecuteSucceeds(rt, reg, store, input, None);
  }

  /** The host side of a call: the gas limit, and the costs recorded so far. */
  class PrecompileHandle {
    const gasLimit: Option<u64>
    var recordedCosts: seq<u64>

    constructor (gasLimit: Option<u64>)
      ensures this.gasLimit == gasLimit && recordedCosts == []
    {
      this.gasLimit := gasLimit;
      recordedCosts := [];
    }

    /** `record_cost`; both checkpoints have passed, so the limit covers it. */
    method RecordCost(cost: u64)
      modifies this
      ensures recordedCosts == old(recordedCosts) + [cost]
    {
      recordedCosts := recordedCosts + [cost];
    }
  }

  /**
   * `execute`: looks up the entry, checks the base gas, builds the key,
   * reads and resolves the default, checks the total gas, windows the value,
   * records the total cost once and returns the encoded output. A failing
   * call records nothing.
   */
  method Execute(
    handle: PrecompileHandle, rt: Runtime, reg: PalletRegistry, store: Storage,
    decoded: Option<MetaStorageReaderInput>
  ) returns (r: Result<Bytes, ExitError>)
    modifies handle
    ensures var spec := MetaExecute(rt, reg, store, decoded, handle.gasLimit);
      && (r.Ok? <==> spec.Ok?)
      && (r.Ok? ==> r.value == spec.value.output)
      && (r.Err? ==> r.error == spec.error)
      && handle.recordedCosts == old(handle.recordedCosts) + (if spec.Ok? then [spec.value.cost] else [])
  {
    var targetGas := handle.gasLimit;
    if decoded.None? {
      return Err(Failure(Decoding));
    }
    var input := decoded.value;
    var entryMeta := PalletStorageEntryMetadata(reg, input.pallet, input.entry);
    if entryMeta.None? {
      return Err(Failure(PalletStorageEntryNotFound));
    }
    var meta := entryMeta.value;
    var defaultByteGetter := DefaultBytes(meta);
    var baseGasCost := BaseGasCost(rt, input.pallet, input.entry, input.key, meta.ty);
    if baseGasCost.Err? {
      return Err(baseGasCost.error);
    }
    if EnsureEnoughGas(targetGas, baseGasCost.value).Err? {
      return Err(OutOfGas);
    }
    var storageKey := ToPalletEntryStorageKey(rt.hashers, input.key, input.pallet, input.entry, meta.ty);
    if storageKey.None? {
      return Err(Failure(InvalidKey));
    }
    var rawOutput := OrDefault(FromOption(Get(store, storageKey.value)), defaultByteGetter);
    var totalGasCost := SaturatingAdd(baseGasCost.value, OutputGasCost(rt, ValueLen(rawOutput)));
    if EnsureEnoughGas(targetGas, totalGasCost).Err? {
      return Err(OutOfGas);
    }
    var output := ApplyParams(rawOutput, input.params);
    handle.RecordCost(totalGasCost);
    var bytes := EncodeToBytes(output);
    r := Ok(bytes);
  }
}
