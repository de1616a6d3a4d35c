/**
 * The older revision of the `storage-reader` crate: the raw storage reader
 * (`raw_storage_reader/params.rs`, `raw_storage_reader/mod.rs`) and the
 * windowing `or_default` of `output.rs`.
 *
 * A raw read takes a storage key and an offset/length selector. With a
 * length it reads at most that many bytes through a bounded buffer; without
 * one it fetches the whole value and drops its first `offset` bytes.
 */
module StorageReaderLegacy {
  import opened Primitives
  import opened Host
  import opened Output

  /** Largest length a caller may ask for. */
  const MAX_BYTES_LEN: u32 := 0x3e800

  /** Validated read parameters; a zero offset is stored as no offset. */
  datatype Params = Params(offset: Option<NonZeroU32>, len: Option<u32>)

  /** `offset.map(NonZeroU32::get).unwrap_or_default()`. */
  function OffsetOrZero(p: Params): nat {
    match p.offset
    case Some(o) => o
    case None => 0
  }

  datatype ParamsError = LengthExceedsLimit | Overflow

  function ParamsErrorMessage(e: ParamsError): string {
    match e
    case Overflow => "Params overflow"
    case LengthExceedsLimit => "Length exceeds limit"
  }

  /** `Params::new`: rejects a length over `MAX_BYTES_LEN`; drops a zero offset. */
  function NewParams(offset: Option<u32>, len: Option<u32>): (r: Result<Params, ParamsError>)
    ensures r.Err? <==> len.Some? && len.value > MAX_BYTES_LEN
    ensures r.Err? ==> r.error == LengthExceedsLimit
    ensures r.Ok? ==> r.value.len == len
    ensures r.Ok? ==> r.value.offset == if offset.Some? && offset.value > 0 then offset else None
  {
    if len.Some? && len.value > MAX_BYTES_LEN then Err(LengthExceedsLimit)
    else Ok(Params(match offset { case Some(o) => NonZero(o) case None => None }, len))
  }

  /** `TryFrom<InputParams>`: each selector goes through `NewParams`. */
  function TryFromInput(ip: InputParams): (r: Result<Params, ParamsError>)
    ensures ip.NoParams? ==> r == Ok(Params(None, None))
    ensures ip.Offset? ==> r == NewParams(Some(ip.offset), None) && r.Ok?
    ensures ip.Len? ==> r == NewParams(None, Some(ip.len))
    ensures ip.OffsetAndLen? ==> r == NewParams(Some(ip.offset), Some(ip.len))
    ensures r.Err? <==> (ip.Len? || ip.OffsetAndLen?) && ip.len > MAX_BYTES_LEN
  {
    match ip
    case NoParams => Ok(Params(None, None))
    case Offset(offset) => NewParams(Some(offset), None)
    case Len(len) => NewParams(None, Some(len))
    case OffsetAndLen(offset, len) => NewParams(Some(offset), Some(len))
  }

  /**
   * `Params::to_range`: the window `lower..upper` of a `max`-byte value.
   * The `u32` to `usize` conversions cannot fail on a 32-bit `usize`, and an
   * overflowing `offset + len` falls back to `max`, so it never errs.
   */
  function ToRange(p: Params, max: nat): (r: Result<Range, ParamsError>)
    ensures r.Ok?
    ensures r.value.lower <= r.value.upper <= max
    ensures p.len.None? ==> r.value.upper == max
    ensures p.len.Some? ==>
      var end := OffsetOrZero(p) + p.len.value;
      r.value.upper == if end <= USIZE_MAX then Min(end, max) else max
    ensures r.value.lower == Min(OffsetOrZero(p), r.value.upper)
  {
    var lower: nat := OffsetOrZero(p);
    if lower > USIZE_MAX then Err(Overflow)
    else
      var upper: Result<nat, ParamsError> :=
        match p.len
        case None => Ok(max)
        case Some(len) => if len > USIZE_MAX then Err(Overflow) else Ok(CheckedAdd(len, lower).GetOr(max));
      match upper
      case Err(e) => Err(e)
      case Ok(upper) =>
        var upper := Min(upper, max);
        Ok(Range(Min(lower, upper), upper))
  }

  /** On any value a `usize` can measure, the window ends at `min(offset + len, max)`. */
  lemma ToRangeWindow(p: Params, max: nat)
    requires max <= USIZE_MAX
    ensures var r := ToRange(p, max).value;
      && r.lower == Min(OffsetOrZero(p), max)
      && r.upper == if p.len.Some? then Min(OffsetOrZero(p) + p.len.value, max) else max
  {
  }

  /**
   * `RawStorageValue::or_default`: a present value is kept as it is; an absent
   * one becomes the default bytes, windowed by the params, when a default
   * getter is supplied.
   */
  function OrDefault(v: RawStorageValue, p: Params, default: Option<Bytes>): (r: Result<RawStorageValue, ParamsError>)
    ensures r.Ok?
    ensures v.Item? ==> r.value == v
    ensures v.NoValue? && default.None? ==> r.value == NoValue
    ensures v.NoValue? && default.Some? ==>
      var rg := ToRange(p, |default.value|).value;
      r.value == Item(default.value[rg.lower..rg.upper])
  {
    match v
    case Item(_) => Ok(v)
    case NoValue =>
      match default
      case None => Ok(NoValue)
      case Some(bytes) =>
        match ToRange(p, |bytes|)
        case Err(e) => Err(e)
        case Ok(rg) => Ok(Item(bytes[rg.lower..rg.upper]))
  }

  /** What a raw read returns, as a function of the store. */
  function ReadSpec(store: Storage, key: Bytes, p: Params): RawStorageValue {
    match Get(store, key)
    case None => NoValue
    case Some(value) =>
      match p.len
      case Some(len) =>
        var data := Tail(value, OffsetOrZero(p));
        Item(data[..Min(len, |data|)])
      case None =>
        if p.offset.Some? then Item(value[Min(|value|, p.offset.value)..]) else Item(value)
  }

  /**
   * A raw read returns exactly the window `to_range` selects on the stored
   * value: reading through a bounded buffer agrees with reading the whole
   * value and slicing it.
   */
  lemma ReadIsWindowOfValue(store: Storage, key: Bytes, p: Params)
    requires key in store ==> |store[key]| <= USIZE_MAX
    ensures key !in store ==> ReadSpec(store, key, p) == NoValue
    ensures key in store ==>
      var value := store[key];
      var rg := ToRange(p, |value|).value;
      ReadSpec(store, key, p) == Item(value[rg.lower..rg.upper])
    ensures p.len.Some? ==> ValueLen(ReadSpec(store, key, p)) <= p.len.value
  {
    if key in store {
      var value := store[key];
      var o := OffsetOrZero(p);
      ToRangeWindow(p, |value|);
      if p.len.Some? {
        var data := Tail(value, o);
        assert data[..Min(p.len.value, |data|)] == value[Min(o, |value|)..Min(o + p.len.value, |value|)];
      }
    }
  }

  /**
   * `RawStorageReader::read`. With a length, a zeroed buffer of that size is
   * filled by the host read at the offset and cut down to the number of
   * bytes the value still holds when that is fewer; without one, the whole
   * value is fetched and its first `offset` bytes are dropped.
   */
  method Read(store: Storage, rawKey: Bytes, p: Params) returns (v: RawStorageValue)
    ensures v == ReadSpec(store, rawKey, p)
    ensures p.len.Some? ==> ValueLen(v) <= p.len.value
    ensures v.NoValue? <==> rawKey !in store
  {
    if p.len.Some? {
      var bytes := new byte[p.len.value](_ => 0);
      var bytesRead := Host.Read(store, rawKey, bytes, OffsetOrZero(p));
      if bytesRead.None? {
        v := NoValue;
      } else {
        var value := bytes[..];
        if bytesRead.value < bytes.Length {
          value := value[..bytesRead.value];
        }
        v := Item(value);
      }
    } else {
      var bytes := Get(store, rawKey);
      if bytes.None? {
        v := NoValue;
      } else if p.offset.Some? {
        var value := bytes.value;
        v := Item(value[Min(|value|, p.offset.value)..]);
      } else {
        v := Item(bytes.value);
      }
    }
  }

  /** The runtime's gas configuration, which these readers only consult. */
  datatype GasConfig = GasConfig(
    weightToGas: nat -> u64,  // `GasWeightMapping::weight_to_gas`
    readWeight: nat,          // `DbWeight::get().reads(1)`
    byteReadWeight: u64       // `ByteReadWeight::get()`
  )

  /** `base_gas_cost`: the gas of one storage read. */
  function RawBaseGasCost(g: GasConfig): u64 {
    g.weightToGas(g.readWeight)
  }

  /** `output_gas_cost`: the gas of returning `outputLen` bytes. */
  function OutputGasCost(g: GasConfig, outputLen: nat): (r: u64)
    ensures r == g.weightToGas(Min(g.byteReadWeight * outputLen, U64_MAX))
  {
    g.weightToGas(SaturatingMul(g.byteReadWeight, outputLen))
  }

  /** `weight_to_gas` never charges less for more weight. */
  ghost predicate MonotoneGas(g: GasConfig) {
    forall w1: nat, w2: nat {:trigger g.weightToGas(w1), g.weightToGas(w2)} ::
      w1 <= w2 ==> g.weightToGas(w1) <= g.weightToGas(w2)
  }

  /** Returning more bytes never costs less gas. */
  lemma OutputGasMonotone(g: GasConfig, len1: nat, len2: nat)
    requires MonotoneGas(g)
    requires len1 <= len2
    ensures OutputGasCost(g, len1) <= OutputGasCost(g, len2)
  {
    var w1 := Min(g.byteReadWeight * len1, U64_MAX);
    var w2 := Min(g.byteReadWeight * len2, U64_MAX);
    assert g.byteReadWeight * len1 <= g.byteReadWeight * len2 by {
      MulMonotone(g.byteReadWeight, len1, len2);
    }
    assert g.weightToGas(w1) <= g.weightToGas(w2);
  }

  lemma MulMonotone(a: nat, x: nat, y: nat)
    requires x <= y
    ensures a * x <= a * y
  {
    assert a * y == a * x + a * (y - x);
  }

  datatype RawStorageReaderInput = RawStorageReaderInput(key: Bytes, params: InputParams)

  datatype PrecompileOutput = PrecompileOutput(output: Bytes, cost: nat)

  /**
   * `RawStorageReader::execute` on the decoded input (`None` when decoding
   * failed). The base gas is checked before the params are converted and
   * before any read; the total is the base plus the output gas, and the
   * output is the presence byte followed by the bytes read.
   */
  function Execute(g: GasConfig, store: Storage, decoded: Option<RawStorageReaderInput>, targetGas: Option<u64>)
    : (r: Result<PrecompileOutput, ExitError>)
    ensures decoded.None? ==> r == Err(Other("Failed to decode"))
    ensures decoded.Some? && targetGas.Some? && targetGas.value < RawBaseGasCost(g) ==> r == Err(OutOfGas)
    ensures targetGas.None? && decoded.Some? ==> (r.Ok? <==> TryFromInput(decoded.value.params).Ok?)
    ensures (decoded.Some? && TryFromInput(decoded.value.params).Err?
             && (targetGas.None? || targetGas.value >= RawBaseGasCost(g))) ==>
      r == Err(Other(ParamsErrorMessage(TryFromInput(decoded.value.params).error)))
    ensures decoded.Some? && TryFromInput(decoded.value.params).Ok? && targetGas.Some? ==>
      var v := ReadSpec(store, decoded.value.key, TryFromInput(decoded.value.params).value);
      var total := RawBaseGasCost(g) + OutputGasCost(g, ValueLen(v));
      && (r.Ok? <==> total <= targetGas.value)
      && (r.Err? ==> r == Err(OutOfGas))
    ensures r.Ok? ==> decoded.Some? && TryFromInput(decoded.value.params).Ok?
    ensures r.Ok? ==>
      var v := ReadSpec(store, decoded.value.key, TryFromInput(decoded.value.params).value);
      && r.value.output == Encoding(v)
      && r.value.cost == RawBaseGasCost(g) + OutputGasCost(g, ValueLen(v))
      && (targetGas.Some? ==> r.value.cost <= targetGas.value)
  {
    match decoded
    case None => Err(Other("Failed to decode"))
    case Some(input) =>
      var baseGasCost := RawBaseGasCost(g);
      if targetGas.Some? && targetGas.value < baseGasCost then Err(OutOfGas)
      else
        match TryFromInput(input.params)
        case Err(e) => Err(Other(ParamsErrorMessage(e)))
        case Ok(params) =>
          var output := ReadSpec(store, input.key, params);
          var totalGasCost := baseGasCost + OutputGasCost(g, ValueLen(output));
          if targetGas.Some? && targetGas.value < totalGasCost then Err(OutOfGas)
          else Ok(PrecompileOutput(Encoding(output), totalGasCost))
  }

  /** An absent key is answered with the single byte 0, a present one with a leading 1. */
  lemma ExecutePresence(g: GasConfig, store: Storage, input: RawStorageReaderInput, targetGas: Option<u64>)
    requires Execute(g, store, Some(input), targetGas).Ok?
    ensures var out := Execute(g, store, Some(input), targetGas).value.output;
      && (input.key !in store ==> out == [0])
      && (input.key in store ==> |out| > 0 && out[0] == 1)
  {
  }

  /** With a length, the answer carries at most that many value bytes. */
  lemma ExecuteBoundedByLen(g: GasConfig, store: Storage, input: RawStorageReaderInput, targetGas: Option<u64>)
    requires Execute(g, store, Some(input), targetGas).Ok?
    requires input.params.Len? || input.params.OffsetAndLen?
    ensures |Execute(g, store, Some(input), targetGas).value.output| <= input.params.len + 1
  {
    var p := TryFromInput(input.params).value;
    var v := ReadSpec(store, input.key, p);
    assert ValueLen(v) <= p.len.value;
    DecodeEncoding(v);
  }
}
