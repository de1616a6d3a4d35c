/**
 * Hasher dispatch and the layout of a final storage key.
 *
 * The digest primitives (BLAKE2 of RFC 7693 and xxHash-based Twox) are
 * library code; they are the function-valued fields of `Hashers`, and only
 * their output widths are fixed here. The dispatch that turns a
 * `StorageHasher` tag into bytes, and the key builder that fills a zeroed
 * buffer with `Twox128(pallet) ++ Twox128(entry) ++ hashed key`, are modelled.
 */
module Hashing {
  import opened Primitives

  datatype StorageHasher =
    | Blake2_128
    | Blake2_256
    | Blake2_128Concat
    | Twox128
    | Twox256
    | Twox64Concat
    | Identity

  type Digest8 = s: Bytes | |s| == 8 witness seq(8, _ => 0)
  type Digest16 = s: Bytes | |s| == 16 witness seq(16, _ => 0)
  type Digest32 = s: Bytes | |s| == 32 witness seq(32, _ => 0)

  /** The library digest functions, each with its fixed output width. */
  datatype Hashers = Hashers(
    blake2_128: Bytes -> Digest16,
    blake2_256: Bytes -> Digest32,
    twox128: Bytes -> Digest16,
    twox256: Bytes -> Digest32,
    twox64: Bytes -> Digest8
  )

  /** Width of the digest part of a hasher's output (0 for `Identity`). */
  function DigestWidth(h: StorageHasher): nat {
    match h
    case Blake2_128 => 16
    case Blake2_256 => 32
    case Blake2_128Concat => 16
    case Twox128 => 16
    case Twox256 => 32
    case Twox64Concat => 8
    case Identity => 0
  }

  /** Hashers whose output ends with the hashed input itself. */
  predicate IsConcat(h: StorageHasher) {
    h.Blake2_128Concat? || h.Twox64Concat? || h.Identity?
  }

  /** `hash_bytes_with`: hashes `bytes` with the algorithm `h` names. */
  function HashBytesWith(hs: Hashers, bytes: Bytes, h: StorageHasher): (r: Bytes)
    ensures |r| == DigestWidth(h) + (if IsConcat(h) then |bytes| else 0)
    ensures IsConcat(h) ==> r[DigestWidth(h)..] == bytes
    ensures h.Twox128? ==> r == hs.twox128(bytes)
  {
    match h
    case Blake2_128 => hs.blake2_128(bytes)
    case Blake2_256 => hs.blake2_256(bytes)
    case Blake2_128Concat => hs.blake2_128(bytes) + bytes
    case Twox128 => hs.twox128(bytes)
    case Twox256 => hs.twox256(bytes)
    case Twox64Concat => hs.twox64(bytes) + bytes
    case Identity => bytes
  }

  /** The final storage key: pallet prefix, entry prefix, then the hashed key. */
  function FinalKey(hs: Hashers, pallet: Name, entry: Name, hashed: Bytes): Bytes {
    hs.twox128(pallet) + hs.twox128(entry) + hashed
  }

  /**
   * Builds the final key the way `to_pallet_entry_storage_key` does: a
   * zeroed buffer of `32 + |hashed|` bytes filled by three slice copies.
   */
  method FillFinalKey(hs: Hashers, pallet: Name, entry: Name, hashed: Bytes) returns (key: Bytes)
    ensures |key| == 32 + |hashed|
    ensures key[..16] == hs.twox128(pallet)
    ensures key[16..32] == hs.twox128(entry)
    ensures key[32..] == hashed
    ensures key == FinalKey(hs, pallet, entry, hashed)
  {
    var finalKey := new byte[32 + |hashed|](_ => 0);
    CopyInto(finalKey, 0, hs.twox128(pallet));
    CopyInto(finalKey, 16, hs.twox128(entry));
    CopyInto(finalKey, 32, hashed);
    key := finalKey[..];
    assert key == key[..16] + key[16..32] + key[32..];
  }

  /** `dst[at..at + |src|].copy_from_slice(src)`; the rest of `dst` is untouched. */
  method CopyInto(dst: array<byte>, at: nat, src: Bytes)
    requires at + |src| <= dst.Length
    modifies dst
    ensures dst[at..at + |src|] == src
    ensures forall k :: 0 <= k < dst.Length && !(at <= k < at + |src|) ==> dst[k] == old(dst[k])
  {
    var i := 0;
    while i < |src|
      invariant 0 <= i <= |src|
      invariant dst[at..at + i] == src[..i]
      invariant forall k :: 0 <= k < dst.Length && !(at <= k < at + i) ==> dst[k] == old(dst[k])
    {
      dst[at + i] := src[i];
      i := i + 1;
    }
  }

  /** Splitting the final key gives back its three parts. */
  lemma FinalKeyParts(hs: Hashers, pallet: Name, entry: Name, hashed: Bytes)
    ensures var k := FinalKey(hs, pallet, entry, hashed);
      && |k| == 32 + |hashed|
      && k[..16] == hs.twox128(pallet)
      && k[16..32] == hs.twox128(entry)
      && k[32..] == hashed
  {
    var k := FinalKey(hs, pallet, entry, hashed);
    assert k[..16] == hs.twox128(pallet);
    assert k[16..32] == hs.twox128(entry);
  }
}
