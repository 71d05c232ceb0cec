/** Integers in JSON: a table of packed digit triples, and writers that consume three digits at a time. */
module JsonNumbers {
  import opened Bytes

  // ---- the numeral ----

  /** The canonical decimal numeral, section 6 of RFC 8259: digits, without leading zeros. */
  function Decimal(v: nat): (s: ByteString)
    ensures |s| >= 1
  {
    if v < 10 then [48 + v] else Decimal(v / 10) + [48 + v % 10]
  }

  function Numeral(v: int): ByteString {
    if v < 0 then [45] + Decimal(-v) else Decimal(v)
  }

  predicate IsDigit(c: Byte) {
    48 <= c <= 57
  }

  /**
   The grammar of integers in section 6 of RFC 8259: an optional minus, then zero or digits not starting with zero.
   */
  predicate IsJsonInteger(s: ByteString) {
    var digits := if s != [] && s[0] == 45 then s[1..] else s;
    && digits != []
    && (forall i :: 0 <= i < |digits| ==> IsDigit(digits[i]))
    && (digits[0] == 48 ==> |digits| == 1)
  }

  function ParseDigits(s: ByteString): int {
    if s == [] then 0 else 10 * ParseDigits(s[..|s| - 1]) + s[|s| - 1] - 48
  }

  function Parse(s: ByteString): int {
    if s != [] && s[0] == 45 then -ParseDigits(s[1..]) else ParseDigits(s)
  }

  lemma {:induction false} DecimalDigits(v: nat)
    ensures forall i :: 0 <= i < |Decimal(v)| ==> IsDigit(Decimal(v)[i])
    ensures Decimal(v)[0] == 48 ==> v == 0 && |Decimal(v)| == 1
    ensures ParseDigits(Decimal(v)) == v
  {
    if v >= 10 {
      DecimalDigits(v / 10);
      var init := Decimal(v / 10);
      assert Decimal(v)[..|Decimal(v)| - 1] == init;
      assert Decimal(v)[0] == init[0];
    } else {
      assert Decimal(v)[..0] == [];
      assert ParseDigits([]) == 0;
    }
  }

  /** Every numeral is a JSON integer and reads back as its value. */
  lemma NumeralCanonical(v: int)
    ensures IsJsonInteger(Numeral(v)) && Parse(Numeral(v)) == v
  {
    hide Decimal, ParseDigits;
    if v < 0 {
      DecimalDigits(-v);
      assert Numeral(v)[1..] == Decimal(-v);
    } else {
      DecimalDigits(v);
      assert IsDigit(Decimal(v)[0]);
    }
  }

  // ---- the digit table ----

  /** Three digits in the low bytes and the number of leading zeros in the top byte. */
  function Packed(i: nat): nat {
    (i / 100 + 48) * 0x1_0000 + (i / 10 % 10 + 48) * 0x100 + i % 10 + 48
    + if i < 10 then 2 * 0x100_0000 else if i < 100 then 0x100_0000 else 0
  }

  method InitDigits() returns (digits: array<nat>)
    ensures fresh(digits) && digits.Length == 1000
    ensures forall i :: 0 <= i < 1000 ==> digits[i] == Packed(i)
  {
    digits := new nat[1000];
    for i := 0 to 1000
      invariant forall j :: 0 <= j < i ==> digits[j] == Packed(j)
    {
      digits[i] := (i / 100 + 48) * 0x1_0000 + (i / 10 % 10 + 48) * 0x100 + i % 10 + 48;
      if i < 10 {
        digits[i] := digits[i] + 2 * 0x100_0000;
      } else if i < 100 {
        digits[i] := digits[i] + 0x100_0000;
      }
    }
  }

  function Triple(i: nat): ByteString
    requires i < 1000
  {
    [48 + i / 100, 48 + i / 10 % 10, 48 + i % 10]
  }

  function FirstBuf(space: ByteString, v: nat): ByteString {
    var start := v / 0x100_0000;
    space
    + (if start == 0 then [v / 0x1_0000 % 256, v / 0x100 % 256] else if start == 1 then [v / 0x100 % 256] else [])
    + [v % 256]
  }

  function Buf(space: ByteString, v: nat): ByteString {
    space + [v / 0x1_0000 % 256, v / 0x100 % 256, v % 256]
  }

  lemma PackedBytes(i: nat)
    requires i < 1000
    ensures var v := Packed(i);
            && v / 0x1_0000 % 256 == 48 + i / 100 && v / 0x100 % 256 == 48 + i / 10 % 10 && v % 256 == 48 + i % 10
            && v / 0x100_0000 == if i < 10 then 2 else if i < 100 then 1 else 0
  {
    Unpack(if i < 10 then 2 else if i < 100 then 1 else 0, i / 100 + 48, i / 10 % 10 + 48, i % 10 + 48);
  }

  lemma Unpack(k: nat, a: Byte, b: Byte, c: Byte)
    ensures var v := a * 0x1_0000 + b * 0x100 + c + k * 0x100_0000;
            v / 0x1_0000 % 256 == a && v / 0x100 % 256 == b && v % 256 == c && v / 0x100_0000 == k
  {
    var v := a * 0x1_0000 + b * 0x100 + c + k * 0x100_0000;
    assert v / 0x100 == a * 0x100 + b + k * 0x1_0000;
    assert v / 0x1_0000 == a + k * 0x100;
  }

  lemma FirstBufIsDecimal(space: ByteString, i: nat)
    requires i < 1000
    ensures FirstBuf(space, Packed(i)) == space + Decimal(i)
  {
    PackedBytes(i);
    if i >= 100 {
      assert Decimal(i) == Decimal(i / 10) + [48 + i % 10];
      assert Decimal(i / 10) == Decimal(i / 10 / 10) + [48 + i / 10 % 10];
      assert Decimal(i / 10 / 10) == [48 + i / 100];
    } else if i >= 10 {
      assert Decimal(i) == Decimal(i / 10) + [48 + i % 10];
    }
  }

  lemma BufIsTriple(space: ByteString, i: nat)
    requires i < 1000
    ensures Buf(space, Packed(i)) == space + Triple(i)
  {
    PackedBytes(i);
  }

  lemma OneDigit(q: nat)
    requires q < 10
    ensures Decimal(q) == [48 + q]
  {
  }

  /** Appending a triple multiplies by a thousand. */
  lemma DecimalTriple(q: nat, r: nat)
    requires q > 0 && r < 1000
    ensures Decimal(1000 * q + r) == Decimal(q) + Triple(r)
  {
    var v := 1000 * q + r;
    assert v / 10 == 100 * q + r / 10 && v % 10 == r % 10;
    assert v / 10 / 10 == 10 * q + r / 100 && v / 10 % 10 == r / 10 % 10;
    assert v / 10 / 10 / 10 == q && v / 10 / 10 % 10 == r / 100;
    assert Decimal(v) == Decimal(v / 10) + [48 + v % 10];
    assert Decimal(v / 10) == Decimal(v / 10 / 10) + [48 + v / 10 % 10];
    assert Decimal(v / 10 / 10) == Decimal(q) + [48 + v / 10 / 10 % 10];
    assert Decimal(v) == Decimal(q) + [48 + r / 100] + [48 + r / 10 % 10] + [48 + r % 10];
  }

  // ---- the writers ----

  /** A signed integer of `width` bits, and what the source's conversions make of it. */
  predicate InSigned(v: int, width: nat) {
    -Power(width - 1) <= v < Power(width - 1)
  }

  function Power(n: int): (p: int)
    ensures p >= 1
  {
    if n <= 0 then 1 else 2 * Power(n - 1)
  }

  /** Negation in `width`-bit two's complement: the least value is its own negation. */
  function WrapNegate(v: int, width: nat): int {
    if v == -Power(width - 1) then v else -v
  }

  function ToUnsigned(v: int, width: nat): (r: nat)
    requires -Power(width) <= v
  {
    if v < 0 then v + Power(width) else v
  }

  /** Converting the wrapped negation to unsigned gives the magnitude, also for the least value. */
  lemma MagnitudeSurvives(v: int, width: nat)
    requires width > 0 && InSigned(v, width) && v < 0
    ensures -Power(width) <= WrapNegate(v, width)
    ensures ToUnsigned(WrapNegate(v, width), width) == -v
  {
  }

  lemma {:induction false} PowerSum(a: nat, b: nat)
    ensures Power(a + b) == Power(a) * Power(b)
  {
    if a > 0 {
      PowerSum(a - 1, b);
    }
  }

  lemma PowerDouble(n: nat)
    ensures Power(n + 1) == 2 * Power(n)
  {
  }

  lemma PowerSeven()
    ensures Power(7) == 0x80
  {
  }

  lemma PowersOfTwo()
    ensures Power(7) == 0x80 && Power(15) == 0x8000
    ensures Power(31) == 0x8000_0000 && Power(63) == 0x8000_0000_0000_0000
  {
    hide Power;
    PowerSeven();
    PowerDouble(7);
    PowerSum(8, 7);
    PowerDouble(15);
    PowerSum(16, 15);
    PowerDouble(31);
    PowerSum(32, 31);
  }
}
