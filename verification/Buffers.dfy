/** Working copies of a file image: `bytearray(data)` and `struct.pack_into("<I", buf, off, w)`. */
module Buffers {
  import opened Words

  method CopyOf(data: seq<byte>) returns (buf: array<byte>)
    ensures fresh(buf) && buf[..] == data
  {
    buf := new byte[|data|](i requires 0 <= i < |data| => data[i]);
  }

  method PackInto(buf: array<byte>, off: nat, w: word)
    requires off + 4 <= buf.Length
    modifies buf
    ensures buf[..] == Store(old(buf[..]), off, w)
  {
    buf[off], buf[off + 1], buf[off + 2], buf[off + 3] := ByteOf(w, 0), ByteOf(w, 1), ByteOf(w, 2), ByteOf(w, 3);
  }
}
