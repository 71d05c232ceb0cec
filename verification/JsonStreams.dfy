/** The JSON output buffer: bytes are only ever appended, and what is appended is a JSON token. */
module JsonStreams {
  import opened Bytes
  import opened JsonNumbers
  import opened JsonStrings

  class JsonStream {
    var buf: ByteString
    const digits: array<nat>

    ghost predicate Valid()
      reads this, digits
    {
      digits.Length == 1000 && forall i :: 0 <= i < 1000 ==> digits[i] == Packed(i)
    }

    constructor ()
      ensures Valid() && fresh(digits) && buf == []
    {
      var table := InitDigits();
      buf := [];
      digits := table;
    }

    method First(i: nat)
      requires Valid() && i < 1000
      modifies `buf
      ensures buf == old(buf) + Decimal(i)
    {
      FirstBufIsDecimal(buf, i);
      buf := FirstBuf(buf, digits[i]);
    }

    method More(i: nat)
      requires Valid() && i < 1000
      modifies `buf
      ensures buf == old(buf) + Triple(i)
    {
      BufIsTriple(buf, i);
      buf := Buf(buf, digits[i]);
    }

    method WriteUint8(val: nat)
      requires Valid() && val < 0x100
      modifies `buf
      ensures buf == old(buf) + Numeral(val)
    {
      First(val);
    }

    method WriteUint16(val: nat)
      requires Valid() && val < 0x1_0000
      modifies `buf
      ensures buf == old(buf) + Numeral(val)
    {
      var q1 := val / 1000;
      if q1 == 0 {
        First(val);
        return;
      }
      var r1 := val - q1 * 1000;
      First(q1);
      More(r1);
      DecimalTriple(q1, r1);
    }

    method WriteUint32(val: nat)
      requires Valid() && val < 0x1_0000_0000
      modifies `buf
      ensures buf == old(buf) + Numeral(val)
    {
      hide Decimal, Triple, Packed;
      ghost var before := buf;
      var q1 := val / 1000;
      if q1 == 0 {
        First(val);
        return;
      }
      var r1 := val - q1 * 1000;
      DecimalTriple(q1, r1);
      var q2 := q1 / 1000;
      if q2 == 0 {
        First(q1);
        More(r1);
        return;
      }
      var r2 := q1 - q2 * 1000;
      DecimalTriple(q2, r2);
      var q3 := q2 / 1000;
      if q3 == 0 {
        First(q2);
      } else {
        var r3 := q2 - q3 * 1000;
        DecimalTriple(q3, r3);
        OneDigit(q3);
        buf := buf + [(q3 + 48) % 256];
        More(r3);
      }
      assert buf == before + Decimal(q2);
      More(r2);
      assert buf == before + Decimal(q1);
      More(r1);
    }

    /** The leading groups of a 64-bit number: one, or two of them. */
    method FirstOrTwo(q: nat)
      requires Valid() && 0 < q < 1_000_000
      modifies `buf
      ensures buf == old(buf) + Decimal(q)
    {
      hide Decimal, Triple, Packed;
      var high := q / 1000;
      if high == 0 {
        First(q);
      } else {
        DecimalTriple(high, q - high * 1000);
        First(high);
        More(q - high * 1000);
      }
    }

    method WriteUint64(val: nat)
      requires Valid() && val < 0x1_0000_0000_0000_0000
      modifies `buf
      ensures buf == old(buf) + Numeral(val)
    {
      hide Decimal, Triple, Packed;
      ghost var before := buf;
      var q1 := val / 1000;
      if q1 == 0 {
        First(val);
        return;
      }
      var r1 := val - q1 * 1000;
      DecimalTriple(q1, r1);
      var q2 := q1 / 1000;
      if q2 == 0 {
        First(q1);
        More(r1);
        return;
      }
      var r2 := q1 - q2 * 1000;
      DecimalTriple(q2, r2);
      var q3 := q2 / 1000;
      if q3 == 0 {
        First(q2);
        More(r2);
        assert buf == before + Decimal(q1);
        More(r1);
        return;
      }
      var r3 := q2 - q3 * 1000;
      DecimalTriple(q3, r3);
      var q4 := q3 / 1000;
      if q4 == 0 {
        First(q3);
        More(r3);
        assert buf == before + Decimal(q2);
        More(r2);
        assert buf == before + Decimal(q1);
        More(r1);
        return;
      }
      var r4 := q3 - q4 * 1000;
      DecimalTriple(q4, r4);
      var q5 := q4 / 1000;
      if q5 == 0 {
        First(q4);
        More(r4);
        assert buf == before + Decimal(q3);
        More(r3);
        assert buf == before + Decimal(q2);
        More(r2);
        assert buf == before + Decimal(q1);
        More(r1);
        return;
      }
      var r5 := q4 - q5 * 1000;
      DecimalTriple(q5, r5);
      FirstOrTwo(q5);
      More(r5);
      assert buf == before + Decimal(q4);
      More(r4);
      assert buf == before + Decimal(q3);
      More(r3);
      assert buf == before + Decimal(q2);
      More(r2);
      assert buf == before + Decimal(q1);
      More(r1);
    }

    method WriteInt8(nval: int)
      requires Valid() && InSigned(nval, 8)
      modifies `buf
      ensures buf == old(buf) + Numeral(nval)
    {
      hide Decimal, Power, Packed;
      PowersOfTwo();
      if nval < 0 {
        MagnitudeSurvives(nval, 8);
        buf := buf + [45];
        First(ToUnsigned(WrapNegate(nval, 8), 8));
      } else {
        First(nval);
      }
    }

    method WriteInt16(nval: int)
      requires Valid() && InSigned(nval, 16)
      modifies `buf
      ensures buf == old(buf) + Numeral(nval)
    {
      hide Decimal, Power, Packed;
      PowersOfTwo();
      if nval < 0 {
        MagnitudeSurvives(nval, 16);
        buf := buf + [45];
        WriteUint16(ToUnsigned(WrapNegate(nval, 16), 16));
      } else {
        WriteUint16(nval);
      }
    }

    method WriteInt32(nval: int)
      requires Valid() && InSigned(nval, 32)
      modifies `buf
      ensures buf == old(buf) + Numeral(nval)
    {
      hide Decimal, Power, Packed;
      PowersOfTwo();
      if nval < 0 {
        MagnitudeSurvives(nval, 32);
        buf := buf + [45];
        WriteUint32(ToUnsigned(WrapNegate(nval, 32), 32));
      } else {
        WriteUint32(nval);
      }
    }

    method WriteInt64(nval: int)
      requires Valid() && InSigned(nval, 64)
      modifies `buf
      ensures buf == old(buf) + Numeral(nval)
    {
      hide Decimal, Power, Packed;
      PowersOfTwo();
      if nval < 0 {
        MagnitudeSurvives(nval, 64);
        buf := buf + [45];
        WriteUint64(ToUnsigned(WrapNegate(nval, 64), 64));
      } else {
        WriteUint64(nval);
      }
    }

    // ---- strings ----

    /** The fast path copies bytes up to the first one that needs an escape; the slow path does the rest. */
    method WriteEscapeString(s: ByteString)
      modifies `buf
      ensures buf == old(buf) + [34] + Escape(s) + [34]
    {
      ghost var before := buf;
      buf := buf + [34];
      var i := 0;
      while i < |s| && Safe(s[i])
        invariant i <= |s| && buf == before + [34] + s[..i]
        invariant forall j :: 0 <= j < i ==> Safe(s[j])
      {
        buf := buf + [s[i]];
        i := i + 1;
      }
      EscapeSafe(s[..i]);
      if i == |s| {
        assert s[..i] == s;
        buf := buf + [34];
        return;
      }
      WriteSlowPath(i, s);
      EscapeSplit(s, i);
    }

    method WriteTwoBytes(c1: Byte, c2: Byte)
      modifies `buf
      ensures buf == old(buf) + [c1, c2]
    {
      buf := buf + [c1, c2];
    }

    /** The escape of one byte that does not stand for itself. */
    method WriteEscape(b: Byte)
      requires !Safe(b)
      modifies `buf
      ensures buf == old(buf) + EscapeByte(b)
    {
      if b == 92 || b == 34 {
        WriteTwoBytes(92, b);
      } else if b == 10 {
        WriteTwoBytes(92, 110);
      } else if b == 13 {
        WriteTwoBytes(92, 114);
      } else if b == 9 {
        WriteTwoBytes(92, 116);
      } else {
        buf := buf + [92, 117, 48, 48];
        WriteTwoBytes(HexDigit(b / 16), HexDigit(b % 16));
      }
    }

    /** From index `i` on: runs of safe bytes are copied at once, the others one by one as escapes. */
    method WriteSlowPath(i: nat, s: ByteString)
      requires i <= |s|
      modifies `buf
      ensures buf == old(buf) + Escape(s[i..]) + [34]
    {
      hide EscapeByte, Safe, Escape;
      var start, at := i, i;
      ghost var done: ByteString := [];
      EscapeNothing(s, i);
      while at < |s|
        invariant i <= start <= at <= |s|
        invariant buf == old(buf) + done && done == Escape(s[i..start])
        invariant forall j :: start <= j < at ==> Safe(s[j])
      {
        if Safe(s[at]) {
          at := at + 1;
          continue;
        }
        RunThenOne(s, i, start, at);
        ghost var run := s[start..at];
        if start < at {
          buf := buf + s[start..at];
        }
        assert buf == old(buf) + (done + run);
        WriteEscape(s[at]);
        done := done + run + EscapeByte(s[at]);
        assert buf == old(buf) + done;
        at := at + 1;
        start := at;
      }
      Tail(s, i, start);
      if start < |s| {
        buf := buf + s[start..];
      }
      assert buf == old(buf) + (done + s[start..]);
      buf := buf + [34];
    }
  }
}
