/**
 * The earliest revision, the `read_storage` crate. Its raw reader reports
 * an absent key as the error "Item not found" instead of a presence byte,
 * its params fail outright when `offset + len` overflows, its keys come in
 * three fixed shapes (none, one component, two components), its metadata
 * may be in either form of `DecodeDifferent`, and both precompiles cost a
 * constant 3000 gas.
 */
module ReadStorage {
  import opened Primitives
  import opened Hashing
  import opened Host
  import PalletProvider

  // ---------------------------------------------------------------------
  // raw_storage_reader/params.rs
  // ---------------------------------------------------------------------

  const MAX_BYTES_LEN: u32 := 0x100000

  datatype Params = Params(offset: Option<NonZeroU32>, len: Option<u32>)

  /** `offset.map(NonZeroU32::get).unwrap_or_default()`. */
  function OffsetOrZero(p: Params): nat {
    match p.offset
    case Some(o) => o
    case None => 0
  }

  /**
   * `Overflow` is raised when a `u32` does not fit a `usize`, which cannot
   * happen on the 32-bit runtime.
   */
  datatype ParamsError = LengthExceedsLimit | OffsetPlusLengthOverflow | Overflow

  function ParamsErrorMessage(e: ParamsError): string {
    match e
    case Overflow => "Params overflow"
    case LengthExceedsLimit => "Length exceeds limit"
    case OffsetPlusLengthOverflow => "offset + length overflow"
  }

  /**
   * `Params::new`: rejects a length above `MAX_BYTES_LEN` (the limit itself
   * is accepted) and stores a zero offset as no offset.
   */
  function NewParams(offset: Option<u32>, len: Option<u32>): (r: Result<Params, ParamsError>)
    ensures r.Err? <==> len.Some? && len.value > MAX_BYTES_LEN
    ensures r.Err? ==> r.error == LengthExceedsLimit
    ensures r.Ok? ==> r.value.len == len
    ensures r.Ok? ==> OffsetOrZero(r.value) == offset.GetOr(0)
    ensures r.Ok? ==> (r.value.offset.None? <==> offset.None? || offset.value == 0)
  {
    if len.Some? && len.value > MAX_BYTES_LEN then Err(LengthExceedsLimit)
    else
      var offset := match offset { case Some(o) => NonZero(o) case None => None };
      Ok(Params(offset, len))
  }

  /** `TryFrom<InputParams>`: each selector goes through `new` with its own offset and length. */
  function TryFromInput(ip: InputParams): (r: Result<Params, ParamsError>)
    ensures ip.NoParams? ==> r == Ok(Params(None, None))
    ensures ip.Offset? ==> r == NewParams(Some(ip.offset), None)
    ensures ip.Len? ==> r == NewParams(None, Some(ip.len))
    ensures ip.OffsetAndLen? ==> r == NewParams(Some(ip.offset), Some(ip.len))
    ensures r.Err? <==> (ip.Len? || ip.OffsetAndLen?) && ip.len > MAX_BYTES_LEN
  {
    match ip
    case NoParams => Ok(Params(None, None))
    case Offset(offset) => NewParams(Some(offset), None)
    case Len(len) => NewParams(None, Some(len))
    case OffsetAndLen(offset, len) => NewParams(Some(offset), Some(len))
  }

  /**
   * `lower_upper`: the offset (or 0) and, with a length, `offset + len`;
   * a sum that does not fit a `usize` is the hard error
   * `OffsetPlusLengthOverflow`.
   */
  function LowerUpper(p: Params): (r: Result<(nat, Option<nat>), ParamsError>)
    ensures r.Err? <==> p.len.Some? && OffsetOrZero(p) + p.len.value > USIZE_MAX
    ensures r.Err? ==> r.error == OffsetPlusLengthOverflow
    ensures r.Ok? ==> r.value.0 == OffsetOrZero(p)
    ensures r.Ok? ==> (r.value.1.None? <==> p.len.None?)
    ensures r.Ok? && p.len.Some? ==> r.value.1.value == r.value.0 + p.len.value >= r.value.0
  {
    var lower := OffsetOrZero(p);
    match p.len
    case None => Ok((lower, None))
    case Some(len) =>
      match CheckedAdd(len, lower)
      case None => Err(OffsetPlusLengthOverflow)
      case Some(upper) => Ok((lower, Some(upper)))
  }

  // ---------------------------------------------------------------------
  // raw_storage_reader/mod.rs
  // ---------------------------------------------------------------------

  datatype RawError = ItemNotFound | InvalidParams | Decoding

  /** `From<Error> for ExitError` of the raw reader. */
  function RawFailure(e: RawError): ExitError {
    match e
    case ItemNotFound => Other("Item not found")
    case InvalidParams => Other("Invalid params")
    case Decoding => Other("Failed to decode")
  }

  /**
   * What a raw read returns: with a length, at most that many bytes of the
   * value from the offset on; without one, the value from
   * `min(offset, len)` on, or the whole value; "Item not found" for an
   * absent key either way.
   */
  function ReadSpec(store: Storage, key: Bytes, p: Params): (r: Result<Bytes, ExitError>)
    ensures r.Err? <==> key !in store
    ensures r.Err? ==> r.error == RawFailure(ItemNotFound)
    ensures r.Ok? && p.len.Some? ==> |r.value| <= p.len.value
    ensures r.Ok? && p.len.None? && p.offset.None? ==> r.value == store[key]
    ensures r.Ok? ==>
      var data := Tail(store[key], OffsetOrZero(p));
      && |r.value| <= |data|
      && r.value == data[..|r.value|]
      && (p.len.None? ==> r.value == data)
      && (p.len.Some? ==> |r.value| == Min(p.len.value, |data|))
  {
    match Get(store, key)
    case None => Err(RawFailure(ItemNotFound))
    case Some(value) =>
      match p.len
      case Some(len) =>
        var data := Tail(value, OffsetOrZero(p));
        Ok(data[..Min(len, |data|)])
      case None =>
        if p.offset.Some? then Ok(value[Min(|value|, p.offset.value)..]) else Ok(value)
  }

  /**
   * `RawStorageReader::read`: with a length, lets the host fill a zeroed
   * buffer of that length from the offset and truncates it to the bytes
   * the value had; without one, fetches the whole value and cuts it at the
   * offset.
   */
  method Read(store: Storage, rawKey: Bytes, p: Params) returns (r: Result<Bytes, ExitError>)
    ensures r == ReadSpec(store, rawKey, p)
  {
    if p.len.Some? {
      var valueOut := new byte[p.len.value](_ => 0);
      var bytesRead := Host.Read(store, rawKey, valueOut, OffsetOrZero(p));
      if bytesRead.None? {
        return Err(RawFailure(ItemNotFound));
      }
      var value := valueOut[..];
      ghost var data := Tail(store[rawKey], OffsetOrZero(p));
      if bytesRead.value < valueOut.Length {
        value := value[..bytesRead.value];
        assert value == valueOut[..|data|] == data[..Min(p.len.value, |data|)];
      } else {
        assert value == valueOut[..p.len.value] == data[..Min(p.len.value, |data|)];
      }
      r := Ok(value);
    } else {
      var bytes := Get(store, rawKey);
      if bytes.None? {
        return Err(RawFailure(ItemNotFound));
      }
      var value := bytes.value;
      if p.offset.Some? {
        value := value[Min(|value|, p.offset.value)..];
      }
      r := Ok(value);
    }
  }

  /** `raw_storage_reader::input::Input`, already decoded. */
  datatype RawInput = RawInput(key: Bytes, params: InputParams)

  /**
   * `RawStorageReader::execute`: a decoding failure or invalid params fail
   * before the store is consulted; otherwise the read's result.
   */
  function RawExecute(store: Storage, decoded: Option<RawInput>): (r: Result<Bytes, ExitError>)
    ensures decoded.None? ==> r == Err(RawFailure(Decoding))
    ensures decoded.Some? && TryFromInput(decoded.value.params).Err? ==>
      r == Err(Other(ParamsErrorMessage(TryFromInput(decoded.value.params).error)))
    ensures decoded.Some? && TryFromInput(decoded.value.params).Ok? ==>
      r == ReadSpec(store, decoded.value.key, TryFromInput(decoded.value.params).value)
  {
    match decoded
    case None => Err(RawFailure(Decoding))
    case Some(input) =>
      match TryFromInput(input.params)
      case Err(e) => Err(Other(ParamsErrorMessage(e)))
      case Ok(params) => ReadSpec(store, input.key, params)
  }

  /** Both precompiles are `LinearCostPrecompile`s with these constants. */
  const BASE: nat := 3000
  const WORD: nat := 0

  /** The linear cost `BASE + WORD * words(input)`, which is 3000 whatever the input. */
  function LinearCost(inputLen: nat): (r: nat)
    ensures r == 3000
  {
    BASE + WORD * ((inputLen + 31) / 32)
  }

  // ---------------------------------------------------------------------
  // meta_storage_reader/utils.rs
  // ---------------------------------------------------------------------

  /** `frame_metadata::DecodeDifferent`: a value in the form to encode, or as decoded. */
  datatype DecodeDifferent<B, O> = Encode(left: B) | Decoded(right: O)

  /** `to_left`. */
  function ToLeft<B, O>(d: DecodeDifferent<B, O>): Option<B> {
    match d
    case Encode(value) => Some(value)
    case Decoded(_) => None
  }

  /** `to_right`. */
  function ToRight<B, O>(d: DecodeDifferent<B, O>): Option<O> {
    match d
    case Decoded(value) => Some(value)
    case Encode(_) => None
  }

  /** Exactly one side is present, and it is the value the variant holds. */
  lemma ExactlyOneSide<B, O>(d: DecodeDifferent<B, O>)
    ensures ToLeft(d).Some? != ToRight(d).Some?
    ensures ToLeft(d).Some? ==> d == Encode(ToLeft(d).value)
    ensures ToRight(d).Some? ==> d == Decoded(ToRight(d).value)
  {
  }

  // ---------------------------------------------------------------------
  // meta_storage_reader/key.rs
  // ---------------------------------------------------------------------

  /** The shape of a storage entry in this metadata version. */
  datatype StorageEntryType =
    | Plain
    | Map(hasher: StorageHasher)
    | DoubleMap(hasher: StorageHasher, key2Hasher: StorageHasher)

  datatype Key = NoKey | MapKey(key: Bytes) | DoubleMapKey(key1: Bytes, key2: Bytes)

  /** A key fits an entry of its own shape only. */
  predicate Compatible(key: Key, ty: StorageEntryType) {
    (key.NoKey? && ty.Plain?) || (key.MapKey? && ty.Map?) || (key.DoubleMapKey? && ty.DoubleMap?)
  }

  /**
   * `to_hashed_key`, dispatched on the key's variant: `None` for a key of
   * the wrong shape; nothing for a plain entry; the key hashed with the
   * map's hasher; or the two keys hashed with their own hashers, in order.
   */
  function ToHashedKey(hs: Hashers, key: Key, ty: StorageEntryType): (r: Option<Bytes>)
    ensures r.Some? <==> Compatible(key, ty)
    ensures r.Some? && key.NoKey? ==> r.value == []
    ensures r.Some? && key.MapKey? ==> r.value == HashBytesWith(hs, key.key, ty.hasher)
    ensures r.Some? && key.DoubleMapKey? ==>
      var hash1 := HashBytesWith(hs, key.key1, ty.hasher);
      var hash2 := HashBytesWith(hs, key.key2, ty.key2Hasher);
      && |r.value| == |hash1| + |hash2|
      && r.value[..|hash1|] == hash1
      && r.value[|hash1|..] == hash2
  {
    match key
    case NoKey => (match ty { case Plain => Some([]) case _ => None })
    case MapKey(k) => (match ty { case Map(hasher) => Some(HashBytesWith(hs, k, hasher)) case _ => None })
    case DoubleMapKey(key1, key2) =>
      match ty
      case DoubleMap(hasher, key2Hasher) =>
        var hash1 := HashBytesWith(hs, key1, hasher);
        var hash2 := HashBytesWith(hs, key2, key2Hasher);
        assert (hash1 + hash2)[..|hash1|] == hash1;
        Some(hash1 + hash2)
      case _ => None
  }

  /** The storage key for a key that fits: `Twox128(pallet) ++ Twox128(entry) ++ hashed key`. */
  function StorageKey(hs: Hashers, key: Key, pallet: Name, entry: Name, ty: StorageEntryType): (r: Option<Bytes>)
    ensures r.Some? <==> Compatible(key, ty)
    ensures r.Some? ==>
      var hashed := ToHashedKey(hs, key, ty).value;
      && |r.value| == 32 + |hashed|
      && r.value[..16] == hs.twox128(pallet)
      && r.value[16..32] == hs.twox128(entry)
      && r.value[32..] == hashed
  {
    match ToHashedKey(hs, key, ty)
    case None => None
    case Some(hashed) =>
      FinalKeyParts(hs, pallet, entry, hashed);
      Some(FinalKey(hs, pallet, entry, hashed))
  }

  /** `to_pallet_entry_storage_key`: hashes the key, then fills the final key buffer. */
  method ToPalletEntryStorageKey(hs: Hashers, key: Key, pallet: Name, entry: Name, ty: StorageEntryType)
    returns (r: Option<Bytes>)
    ensures r == StorageKey(hs, key, pallet, entry, ty)
  {
    var storageKey := ToHashedKey(hs, key, ty);
    if storageKey.None? {
      return None;
    }
    var finalKey := FillFinalKey(hs, pallet, entry, storageKey.value);
    r := Some(finalKey);
  }

  // ---------------------------------------------------------------------
  // meta_storage_reader/pallet_storage_metadata_provider.rs
  // ---------------------------------------------------------------------

  datatype StorageEntryModifier = Optional | Default

  /** An entry's metadata; `default` is the default-byte getter, reduced to the bytes it yields. */
  datatype StorageEntryMetadata = StorageEntryMetadata(
    name: DecodeDifferent<Name, Name>,
    modifier: StorageEntryModifier,
    ty: StorageEntryType,
    default: DecodeDifferent<Bytes, Bytes>
  )

  datatype StorageMetadata = StorageMetadata(
    prefix: DecodeDifferent<Name, Name>,
    entries: DecodeDifferent<seq<StorageEntryMetadata>, seq<StorageEntryMetadata>>
  )

  type PalletRegistry = PalletProvider.Arms<StorageMetadata>

  /** The error `pallet_storage_entry_metadata` reports for metadata not in `Encode` form. */
  datatype InvalidMetadata = InvalidMetadata

  /**
   * Where the scan over the entries stops: at the first entry whose name is
   * not in `Encode` form or equals `entry`, or at `|entries|`.
   */
  function ScanStop(entries: seq<StorageEntryMetadata>, entry: Name): (i: nat)
    ensures i <= |entries|
    ensures forall j | 0 <= j < i :: entries[j].name.Encode? && entries[j].name.left != entry
    ensures i < |entries| ==> entries[i].name.Decoded? || entries[i].name.left == entry
    decreases |entries|
  {
    if entries == [] || entries[0].name.Decoded? || entries[0].name.left == entry then 0
    else 1 + ScanStop(entries[1..], entry)
  }

  /**
   * What `pallet_storage_entry_metadata` returns: `Ok(None)` for an unknown
   * pallet; `InvalidMetadata` when the entry list, or a name met before a
   * match, is not in `Encode` form; otherwise the first entry with the name,
   * or `Ok(None)` when there is none.
   */
  function EntryMetadataOf(reg: PalletRegistry, pallet: Name, entry: Name): (r: Result<Option<StorageEntryMetadata>, InvalidMetadata>)
    ensures PalletProvider.PalletStorageMetadataOf(reg, pallet).None? ==> r == Ok(None)
    ensures r.Ok? && r.value.Some? ==> ToLeft(r.value.value.name) == Some(entry)
    ensures PalletProvider.PalletStorageMetadataOf(reg, pallet).Some? ==>
      var meta := PalletProvider.PalletStorageMetadataOf(reg, pallet).value;
      && (meta.entries.Decoded? ==> r == Err(InvalidMetadata))
      && (meta.entries.Encode? ==>
        var entries := meta.entries.left;
        var i := ScanStop(entries, entry);
        && (r == Ok(None) <==> i == |entries|)
        && (r.Err? <==> i < |entries| && entries[i].name.Decoded?)
        && (r.Ok? && r.value.Some? ==> r.value.value == entries[i]))
  {
    match PalletProvider.PalletStorageMetadataOf(reg, pallet)
    case None => Ok(None)
    case Some(meta) =>
      match ToLeft(meta.entries)
      case None => Err(InvalidMetadata)
      case Some(entries) =>
        var i := ScanStop(entries, entry);
        if i == |entries| then Ok(None)
        else if entries[i].name.Decoded? then Err(InvalidMetadata)
        else Ok(Some(entries[i]))
  }

  /**
   * `pallet_storage_entry_metadata`: scans the entries in order, failing on
   * a name not in `Encode` form and returning at the first match.
   */
  method PalletStorageEntryMetadata(reg: PalletRegistry, pallet: Name, entry: Name)
    returns (r: Result<Option<StorageEntryMetadata>, InvalidMetadata>)
    ensures r == EntryMetadataOf(reg, pallet, entry)
  {
    var palletMeta := PalletProvider.PalletStorageMetadataOf(reg, pallet);
    if palletMeta.Some? {
      var entries := ToLeft(palletMeta.value.entries);
      if entries.None? {
        return Err(InvalidMetadata);
      }
      var items := entries.value;
      for i := 0 to |items|
        invariant forall j | 0 <= j < i :: items[j].name.Encode? && items[j].name.left != entry
      {
        var name := ToLeft(items[i].name);
        if name.None? {
          return Err(InvalidMetadata);
        }
        if name.value == entry {
          return Ok(Some(items[i]));
        }
      }
    }
    return Ok(None);
  }

  // ---------------------------------------------------------------------
  // meta_storage_reader/mod.rs
  // ---------------------------------------------------------------------

  datatype MetaError = MemberNotFound | MetaInvalidMetadata | InvalidKey | MetaItemNotFound | MetaDecoding

  /** `From<Error> for ExitError` of the meta reader. */
  function MetaFailure(e: MetaError): ExitError {
    match e
    case MetaInvalidMetadata => Other("Invalid metadata")
    case MemberNotFound => Other("Member not found")
    case InvalidKey => Other("Invalid key")
    case MetaItemNotFound => Other("Item not found")
    case MetaDecoding => Other("Failed to decode input")
  }

  /** `meta_storage_reader::input::Input`, already decoded. */
  datatype MetaInput = MetaInput(pallet: Name, entry: Name, key: Key, params: InputParams)

  /**
   * The default getter: none for an `Optional` entry; for a `Default` entry
   * its default bytes, or `InvalidMetadata` when they are not in `Encode` form.
   */
  function DefaultGetter(meta: StorageEntryMetadata): (r: Result<Option<Bytes>, ExitError>)
    ensures meta.modifier == Optional ==> r == Ok(None)
    ensures meta.modifier == Default && meta.default.Decoded? ==> r == Err(MetaFailure(MetaInvalidMetadata))
    ensures meta.modifier == Default && meta.default.Encode? ==> r == Ok(Some(meta.default.left))
  {
    if meta.modifier == Default then
      match ToLeft(meta.default)
      case None => Err(MetaFailure(MetaInvalidMetadata))
      case Some(bytes) => Ok(Some(bytes))
    else Ok(None)
  }

  /**
   * `value.get(lower..upper.unwrap_or(len).min(len)).unwrap_or_default()`:
   * the bytes from `lower` up to the clamped end, or nothing when `lower`
   * lies beyond that end.
   */
  function SliceDefault(value: Bytes, lower: nat, upper: Option<nat>): (r: Bytes)
    ensures var end := Min(upper.GetOr(|value|), |value|);
      r == value[Min(lower, end)..end]
    ensures upper.None? ==> r == Tail(value, lower)
  {
    var end := Min(upper.GetOr(|value|), |value|);
    if lower <= end then value[lower..end] else []
  }

  /**
   * `MetaStorageReader::execute`: decode, look the entry up, get the
   * default, build the key, convert the params, then read; when the read
   * fails with "Item not found" and there is a default, answer with the
   * default sliced by `lower_upper`.
   */
  function MetaExecute(hs: Hashers, reg: PalletRegistry, store: Storage, decoded: Option<MetaInput>): (r: Result<Bytes, ExitError>)
    ensures decoded.None? ==> r == Err(MetaFailure(MetaDecoding))
  {
    match decoded
    case None => Err(MetaFailure(MetaDecoding))
    case Some(input) =>
      match EntryMetadataOf(reg, input.pallet, input.entry)
      case Err(_) => Err(MetaFailure(MetaInvalidMetadata))
      case Ok(None) => Err(MetaFailure(MemberNotFound))
      case Ok(Some(meta)) =>
        match DefaultGetter(meta)
        case Err(e) => Err(e)
        case Ok(defaultBytes) =>
          match StorageKey(hs, input.key, input.pallet, input.entry, meta.ty)
          case None => Err(MetaFailure(InvalidKey))
          case Some(storageKey) =>
            match TryFromInput(input.params)
            case Err(e) => Err(Other(ParamsErrorMessage(e)))
            case Ok(params) =>
              match ReadSpec(store, storageKey, params)
              case Ok(value) => Ok(value)
              case Err(error) =>
                if error == RawFailure(ItemNotFound) then
                  match defaultBytes
                  case None => Err(error)
                  case Some(value) =>
                    match LowerUpper(params)
                    case Err(e) => Err(Other(ParamsErrorMessage(e)))
                    case Ok((lower, upper)) => Ok(SliceDefault(value, lower, upper))
                else Err(error)
  }

  /** The entry a well-formed request names, when the lookup finds one. */
  predicate Found(reg: PalletRegistry, input: MetaInput) {
    EntryMetadataOf(reg, input.pallet, input.entry).Ok? && EntryMetadataOf(reg, input.pallet, input.entry).value.Some?
  }

  function EntryOf(reg: PalletRegistry, input: MetaInput): StorageEntryMetadata
    requires Found(reg, input)
  {
    EntryMetadataOf(reg, input.pallet, input.entry).value.value
  }

  /** A well-formed request whose key fits and whose params are valid. */
  predicate Accepted(hs: Hashers, reg: PalletRegistry, input: MetaInput) {
    && Found(reg, input)
    && DefaultGetter(EntryOf(reg, input)).Ok?
    && Compatible(input.key, EntryOf(reg, input).ty)
    && TryFromInput(input.params).Ok?
  }

  /**
   * Unknown entries, invalid metadata, keys of the wrong shape and invalid
   * params are all reported before the store is consulted: the answer is
   * the same for every store.
   */
  lemma RejectedBeforeRead(hs: Hashers, reg: PalletRegistry, store1: Storage, store2: Storage, input: MetaInput)
    requires !Accepted(hs, reg, input)
    ensures MetaExecute(hs, reg, store1, Some(input)) == MetaExecute(hs, reg, store2, Some(input))
    ensures MetaExecute(hs, reg, store1, Some(input)).Err?
    ensures !Found(reg, input) && EntryMetadataOf(reg, input.pallet, input.entry).Ok? ==>
      MetaExecute(hs, reg, store1, Some(input)) == Err(MetaFailure(MemberNotFound))
    ensures Found(reg, input) && DefaultGetter(EntryOf(reg, input)).Ok? && !Compatible(input.key, EntryOf(reg, input).ty) ==>
      MetaExecute(hs, reg, store1, Some(input)) == Err(MetaFailure(InvalidKey))
    ensures EntryMetadataOf(reg, input.pallet, input.entry).Err? ==>
      MetaExecute(hs, reg, store1, Some(input)) == Err(MetaFailure(MetaInvalidMetadata))
    ensures Found(reg, input) && DefaultGetter(EntryOf(reg, input)).Err? ==>
      MetaExecute(hs, reg, store1, Some(input)) == Err(MetaFailure(MetaInvalidMetadata))
    ensures (Found(reg, input) && DefaultGetter(EntryOf(reg, input)).Ok? && Compatible(input.key, EntryOf(reg, input).ty)
             && TryFromInput(input.params).Err?) ==>
      MetaExecute(hs, reg, store1, Some(input)) == Err(Other(ParamsErrorMessage(TryFromInput(input.params).error)))
  {
  }

  /**
   * For an accepted request: a stored value is answered with the raw read
   * of it; an absent one with "Item not found" when the entry has no
   * default, and otherwise with the default sliced by `lower_upper` (or
   * the params error that raises).
   */
  lemma AcceptedRequest(hs: Hashers, reg: PalletRegistry, store: Storage, input: MetaInput)
    requires Accepted(hs, reg, input)
    ensures var meta := EntryOf(reg, input);
      var key := StorageKey(hs, input.key, input.pallet, input.entry, meta.ty).value;
      var params := TryFromInput(input.params).value;
      var r := MetaExecute(hs, reg, store, Some(input));
      && (key in store ==> r == ReadSpec(store, key, params))
      && (key !in store && meta.modifier == Optional ==> r == Err(RawFailure(ItemNotFound)))
      && (key !in store && meta.modifier == Default ==>
           match LowerUpper(params)
           case Err(e) => r == Err(Other(ParamsErrorMessage(e)))
           case Ok((lower, upper)) => r == Ok(SliceDefault(meta.default.left, lower, upper)))
  {
  }

  /**
   * A stored value is windowed by the raw read: offset 10 drops the first
   * ten bytes, and offset 10 with length 50 keeps the fifty after them.
   */
  lemma StoredValueWindows(store: Storage, key: Bytes)
    requires key in store && |store[key]| >= 60
    ensures ReadSpec(store, key, TryFromInput(Offset(10)).value) == Ok(store[key][10..])
    ensures ReadSpec(store, key, TryFromInput(OffsetAndLen(10, 50)).value) == Ok(store[key][10..60])
  {
    assert Tail(store[key], 10)[..50] == store[key][10..60];
  }
}
