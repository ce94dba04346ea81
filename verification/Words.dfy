/** 32-bit words, two's complement reading, and little-endian byte access. */
module Words {

  const TWO32: int := 0x1_0000_0000

  type word = x: int | 0 <= x < 0x1_0000_0000

  type byte = x: int | 0 <= x < 256

  datatype Option<+T> = None | Some(value: T)

  function Wrap(x: int): word {
    x % 0x1_0000_0000
  }

  function Signed(w: word): int {
    if w < 0x8000_0000 then w else w - 0x1_0000_0000
  }

  lemma MulLe(a: int, b: int, c: int)
    requires a <= b && c >= 0
    ensures a * c <= b * c
  {
    assert b * c - a * c == (b - a) * c;
  }

  /** Byte `i` of a word stored little-endian. */
  function ByteOf(w: word, i: nat): byte
    requires i < 4
  {
    if i == 0 then w % 256
    else if i == 1 then w / 0x100 % 256
    else if i == 2 then w / 0x1_0000 % 256
    else w / 0x100_0000
  }

  function Pack(b0: byte, b1: byte, b2: byte, b3: byte): word {
    b0 + 0x100 * b1 + 0x1_0000 * b2 + 0x100_0000 * b3
  }

  /** The four bytes `struct.pack("<I", w)` writes. */
  function Bytes4(w: word): seq<byte> {
    [ByteOf(w, 0), ByteOf(w, 1), ByteOf(w, 2), ByteOf(w, 3)]
  }

  lemma PackBytes(w: word)
    ensures Pack(ByteOf(w, 0), ByteOf(w, 1), ByteOf(w, 2), ByteOf(w, 3)) == w
  {
    assert w / 0x100 / 0x100 == w / 0x1_0000;
    assert w / 0x1_0000 / 0x100 == w / 0x100_0000;
  }

  lemma BytesPack(b0: byte, b1: byte, b2: byte, b3: byte)
    ensures ByteOf(Pack(b0, b1, b2, b3), 0) == b0
    ensures ByteOf(Pack(b0, b1, b2, b3), 1) == b1
    ensures ByteOf(Pack(b0, b1, b2, b3), 2) == b2
    ensures ByteOf(Pack(b0, b1, b2, b3), 3) == b3
  {
    var w := Pack(b0, b1, b2, b3);
    assert w == 0x100 * (b1 + 0x100 * (b2 + 0x100 * b3)) + b0;
    assert w / 0x100 == b1 + 0x100 * (b2 + 0x100 * b3);
    assert w / 0x1_0000 == w / 0x100 / 0x100 == b2 + 0x100 * b3;
    assert w / 0x100_0000 == w / 0x1_0000 / 0x100 == b3;
  }

  /** `struct.unpack_from("<I", data, off)`. */
  function Load(data: seq<byte>, off: nat): word
    requires off + 4 <= |data|
  {
    Pack(data[off], data[off + 1], data[off + 2], data[off + 3])
  }

  /** `struct.pack_into("<I", data, off, w)`. */
  function Store(data: seq<byte>, off: nat, w: word): (r: seq<byte>)
    requires off + 4 <= |data|
    ensures |r| == |data|
  {
    data[off := ByteOf(w, 0)][off + 1 := ByteOf(w, 1)][off + 2 := ByteOf(w, 2)][off + 3 := ByteOf(w, 3)]
  }

  lemma LoadStore(data: seq<byte>, off: nat, w: word, at: nat)
    requires off + 4 <= |data| && at + 4 <= |data|
    ensures at == off ==> Load(Store(data, off, w), at) == w
    ensures at + 4 <= off || off + 4 <= at ==> Load(Store(data, off, w), at) == Load(data, at)
  {
    PackBytes(w);
  }

  /** ASCII bytes of a literal. */
  function Ascii(s: string): (b: seq<byte>)
    requires forall i :: 0 <= i < |s| ==> s[i] as int < 256
    ensures |b| == |s| && forall i :: 0 <= i < |s| ==> b[i] == s[i] as int
  {
    seq(|s|, i requires 0 <= i < |s| => s[i] as int)
  }

  /** `%d`, in ASCII. */
  function Decimal(n: int): seq<byte>
    decreases if n < 0 then 1 - n else n
  {
    if n < 0 then [45] + Decimal(-n)
    else if n < 10 then [48 + n]
    else Decimal(n / 10) + [48 + n % 10]
  }
}
