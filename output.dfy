/**
 * `RawStorageValue`: a value read from storage, present or not, and its
 * one-byte presence encoding. The older `output.rs` and the current
 * `common/output.rs` declare the same type with the same codec; both
 * revisions use this module.
 */
module Output {
  import opened Primitives

  datatype RawStorageValue = NoValue | Item(bytes: Bytes)

  /** `len`: the number of value bytes (none for an absent value). */
  function ValueLen(v: RawStorageValue): nat {
    match v
    case NoValue => 0
    case Item(bytes) => |bytes|
  }

  /** `into_item`. */
  function IntoItem(v: RawStorageValue): Option<Bytes> {
    match v
    case NoValue => None
    case Item(bytes) => Some(bytes)
  }

  /** `From<Option<Bytes>>`. */
  function FromOption(o: Option<Bytes>): RawStorageValue {
    match o
    case None => NoValue
    case Some(bytes) => Item(bytes)
  }

  /** The wire form of a value: a presence byte, then the value bytes. */
  function Encoding(v: RawStorageValue): Bytes {
    match v
    case NoValue => [0]
    case Item(bytes) => [1] + bytes
  }

  /** The accessors and the conversion from `Option` agree with each other. */
  lemma Accessors(v: RawStorageValue, o: Option<Bytes>)
    ensures IntoItem(FromOption(o)) == o
    ensures FromOption(IntoItem(v)) == v
    ensures ValueLen(v) == |IntoItem(v).GetOr([])|
    ensures v.NoValue? <==> IntoItem(v).None?
  {
  }

  /**
   * `encode_to_bytes`: allocates a zeroed buffer of `len() + 1` bytes and,
   * for a present value, sets the presence byte and copies the value after it.
   */
  method EncodeToBytes(v: RawStorageValue) returns (output: Bytes)
    ensures |output| == ValueLen(v) + 1
    ensures output[0] == if v.Item? then 1 else 0
    ensures v.Item? ==> output[1..] == v.bytes
    ensures output == Encoding(v)
  {
    var buf := new byte[ValueLen(v) + 1](_ => 0);
    if v.Item? {
      buf[0] := 1;
      var i := 0;
      while i < |v.bytes|
        invariant 0 <= i <= |v.bytes|
        invariant buf[0] == 1
        invariant buf[1..i + 1] == v.bytes[..i]
      {
        buf[i + 1] := v.bytes[i];
        i := i + 1;
      }
    }
    output := buf[..];
    assert v.Item? ==> output == [1] + output[1..];
  }

  /** `decode_from_bytes`: present exactly when the first byte is 1. */
  function DecodeFromBytes(bytes: Bytes): (r: RawStorageValue)
    ensures r.Item? <==> |bytes| > 0 && bytes[0] == 1
    ensures r.Item? ==> r.bytes == bytes[1..]
  {
    if |bytes| > 0 && bytes[0] == 1 then Item(bytes[1..]) else NoValue
  }

  /** Decoding the encoding gives back the value, absent or present. */
  lemma DecodeEncoding(v: RawStorageValue)
    ensures DecodeFromBytes(Encoding(v)) == v
    ensures |Encoding(v)| == ValueLen(v) + 1
  {
  }

  /**
   * Encoding what was decoded reproduces the input exactly when the input is
   * canonical: `[0]`, or a leading 1. Any other input decodes to an absent
   * value whose encoding is `[0]`.
   */
  lemma EncodingOfDecoded(bytes: Bytes)
    ensures Encoding(DecodeFromBytes(bytes)) == bytes <==> bytes == [0] || (|bytes| > 0 && bytes[0] == 1)
    ensures !(|bytes| > 0 && bytes[0] == 1) ==> Encoding(DecodeFromBytes(bytes)) == [0]
  {
    if |bytes| > 0 && bytes[0] == 1 {
      assert [1] + bytes[1..] == bytes;
    }
  }
}
