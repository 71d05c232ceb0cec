/** Fixed-width integer encoding in the byte order of the machine (little endian on Windows). */
module Bytes {

  type Byte = b: int | 0 <= b < 256

  type ByteString = seq<Byte>

  /** Lower-case hexadecimal, as an ASCII byte. */
  function HexDigit(d: nat): Byte
    requires d < 16
  {
    if d < 10 then 48 + d else 87 + d
  }

  /** The digits in order, as text. */
  lemma HexDigits(d: nat)
    requires d < 16
    ensures HexDigit(d) == "0123456789abcdef"[d] as int
  {
  }

  /** The number of values a field of `width` bytes can hold. */
  function Capacity(width: nat): (c: nat)
    ensures c > 0
  {
    if width == 0 then 1 else 256 * Capacity(width - 1)
  }

  function WriteUint(v: nat, width: nat): (b: ByteString)
    ensures |b| == width
  {
    if width == 0 then [] else [v % 256] + WriteUint(v / 256, width - 1)
  }

  /** The low byte comes first. */
  lemma LowFirst(low: Byte, high: nat, width: nat)
    ensures WriteUint(low + 256 * high, width + 1) == [low] + WriteUint(high, width)
  {
    LowByteOf(low, high);
  }

  lemma LowByteOf(low: Byte, high: nat)
    ensures (low + 256 * high) % 256 == low && (low + 256 * high) / 256 == high
  {
  }

  function ReadUint(b: ByteString): (v: nat)
  {
    if b == [] then 0 else b[0] + 256 * ReadUint(b[1..])
  }

  /** What is read back is the value modulo the capacity of the field. */
  lemma {:induction false} ReadBack(v: nat, width: nat)
    ensures ReadUint(WriteUint(v, width)) == v % Capacity(width)
  {
    if width > 0 {
      var b := WriteUint(v, width);
      assert b[1..] == WriteUint(v / 256, width - 1);
      ReadBack(v / 256, width - 1);
      ModSplit(v, Capacity(width - 1));
    }
  }

  lemma ModSplit(v: nat, c: nat)
    requires c > 0
    ensures v % (256 * c) == v % 256 + 256 * ((v / 256) % c)
  {
    var q := v / 256 / c;
    var r := (v / 256) % c;
    assert v / 256 == q * c + r;
    assert v == 256 * (q * c + r) + v % 256;
    assert v == (256 * c) * q + (256 * r + v % 256) by {
      assert 256 * (q * c) == (256 * c) * q;
    }
    ModUnique(v, 256 * c, q, 256 * r + v % 256);
  }

  lemma ModUnique(v: int, m: int, q: int, r: int)
    requires m > 0 && 0 <= r < m && v == m * q + r
    ensures v % m == r
  {
    var d := v / m - q;
    assert m * d == r - v % m by {
      assert v == m * (v / m) + v % m;
      assert m * (v / m) - m * q == m * d;
    }
    assert d >= 1 ==> m * d >= m;
    assert d <= -1 ==> m * d <= -m;
  }

  lemma Capacities()
    ensures Capacity(1) == 0x100
    ensures Capacity(2) == 0x1_0000
    ensures Capacity(4) == 0x1_0000_0000
    ensures Capacity(8) == 0x1_0000_0000_0000_0000
  {
    assert Capacity(3) == 0x100_0000;
    assert Capacity(5) == 0x100_0000_0000;
    assert Capacity(6) == 0x1_0000_0000_0000;
    assert Capacity(7) == 0x100_0000_0000_0000;
  }
}
