/**
 * The storage host functions the readers call. The key-value store is a map
 * passed in as a parameter; `Get` stands for `sp_io::storage::get` and `Read`
 * for `sp_io::storage::read`, which copies part of a value into a caller's
 * buffer and reports how many bytes the value holds past the offset.
 */
module Host {
  import opened Primitives

  type Storage = map<Bytes, Bytes>

  /**
   * `sp_io::storage::get`. This is the host primitive's specification, not
   * a computation: its contract is what the readers rely on, and the body
   * is the map lookup that meets it.
   */
  function Get(store: Storage, key: Bytes): (r: Option<Bytes>)
    ensures r.Some? <==> key in store
    ensures r.Some? ==> r.value == store[key]
  {
    if key in store then Some(store[key]) else None
  }

  /** The part of a stored value that lies at or after `offset`. */
  function Tail(value: Bytes, offset: nat): Bytes {
    value[Min(offset, |value|)..]
  }

  /**
   * `sp_io::storage::read(key, buf, offset)`: for a present key, copies the
   * first `min(|tail|, buf.Length)` bytes of the value's tail into `buf`,
   * leaves the rest of `buf` alone and returns the tail's length.
   */
  method Read(store: Storage, key: Bytes, buf: array<byte>, offset: nat) returns (bytesRead: Option<nat>)
    modifies buf
    ensures bytesRead.Some? <==> key in store
    ensures key !in store ==> buf[..] == old(buf[..])
    ensures key in store ==>
      var data := Tail(store[key], offset);
      var n := Min(|data|, buf.Length);
      && bytesRead.value == |data|
      && buf[..n] == data[..n]
      && buf[n..] == old(buf[n..])
  {
    if key !in store {
      return None;
    }
    var data := Tail(store[key], offset);
    var n := Min(|data|, buf.Length);
    var i := 0;
    while i < n
      invariant 0 <= i <= n
      invariant buf[..i] == data[..i]
      invariant buf[n..] == old(buf[n..])
    {
      buf[i] := data[i];
      i := i + 1;
    }
    bytesRead := Some(|data|);
  }
}
